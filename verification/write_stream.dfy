/**
 `ImageWriteStream` of `lib/image-write-stream.js`: a writable sink that
 holds back the chunk seen while its position is 0, writes every later
 chunk at the running position, and writes the held chunk at offset 0 on
 `finish`, before emitting `done`. Its own `writeChunk` makes exactly one
 `fs.write` call (no retry). Node's stream machinery is replaced by a fold
 over the chunks; `env(n)` is what the n-th issued `fs.write` (counting
 from 0) reports.

 An empty `Buffer` is truthy, so an empty chunk at position 0 is held, the
 position stays 0, and the next chunk is held in its place.
 */
module ImageWriteStream {
  import opened Base
  import opened Position
  import opened Filesystem
  import opened Device

  datatype Writer = Writer(position: Counter, firstChunk: Option<seq<Byte>>)

  /** A stream that has seen no chunk. */
  function Initial(): (w: Writer)
    ensures Get(w.position) == 0 && w.firstChunk.None?
  {
    Writer(Fresh(), None)
  }

  /** What the `write` handler does with one chunk. */
  datatype Step =
    | Held(next: Writer)
    | Issued(next: Writer, write: Write, failure: Option<Error>)

  /** The `write` handler; `outcome` is what its `fs.write` reports, if it makes one. */
  function OnChunk(w: Writer, chunk: seq<Byte>, outcome: WriteOutcome): (r: Step)
    ensures r.Held? <==> Get(w.position) == 0
    ensures r.Held? ==> r.next.firstChunk == Some(chunk) && Get(r.next.position) == |chunk|
    ensures r.Issued? ==> r.write == Write(Get(w.position), chunk) && r.next.firstChunk == w.firstChunk
    ensures r.Issued? ==> (r.failure.None? <==> outcome == Wrote(|chunk|))
    ensures r.Issued? && r.failure.None? ==> Get(r.next.position) == Get(w.position) + |chunk|
    ensures r.Issued? && r.failure.Some? ==> r.next == w && Err(r.failure.value) == Settle(chunk, outcome)
  {
    var position := Get(w.position);
    if position == 0 then
      Held(Writer(Increment(w.position, |chunk|), Some(chunk)))
    else
      match Settle(chunk, outcome)
      case Err(e) => Issued(w, Write(position, chunk), Some(e))
      case Ok(_) => Issued(Writer(Increment(w.position, |chunk|), w.firstChunk), Write(position, chunk), None)
  }

  /** The sink after the `write` handler has run over `chunks`: its state, the writes issued, and the error that stopped it. */
  datatype Progress = Progress(writer: Writer, writes: seq<Write>, error: Option<Error>)

  /** The sink after one more chunk, unless an earlier write already failed. */
  function Next(p: Progress, chunk: seq<Byte>, outcome: WriteOutcome): Progress {
    if p.error.Some? then p
    else
      match OnChunk(p.writer, chunk, outcome)
      case Held(n) => Progress(n, p.writes, None)
      case Issued(n, w, f) => Progress(n, p.writes + [w], f)
  }

  /** Every write in `ws` but the last `failed` ones was reported in full by `env`, the k-th write answered by `env(k)`. */
  predicate WrittenInFull(ws: seq<Write>, env: nat -> WriteOutcome, failed: nat) {
    forall j :: 0 <= j < |ws| - failed ==> env(j) == Wrote(|ws[j].data|)
  }

  /**
   Chunks are handled in order; once a write fails the stream stops taking
   chunks. The first chunk is always held, so fewer writes than chunks are
   issued.
   */
  function Pump(chunks: seq<seq<Byte>>, env: nat -> WriteOutcome): (p: Progress)
    ensures |chunks| == 0 ==> p.writes == []
    ensures |chunks| > 0 ==> |p.writes| < |chunks| && p.writer.firstChunk.Some?
    decreases |chunks|
  {
    if |chunks| == 0 then Progress(Initial(), [], None)
    else
      var p := Pump(chunks[..|chunks| - 1], env);
      Next(p, chunks[|chunks| - 1], env(|p.writes|))
  }

  /**
   What the writes issued so far met, for chunks of total length `total`:
   none at offset 0, each answered in full except a failing last one, whose
   error is the one kept; without an error the position is `total`.
   */
  predicate Outcomes(total: nat, p: Progress, env: nat -> WriteOutcome) {
    && Get(p.writer.position) >= 0
    && (forall j :: 0 <= j < |p.writes| ==> p.writes[j].offset > 0)
    && (p.error.None? ==> Get(p.writer.position) == total)
    && WrittenInFull(p.writes, env, if p.error.Some? then 1 else 0)
    && (p.error.Some? ==> |p.writes| > 0 && Settle(p.writes[|p.writes| - 1].data, env(|p.writes| - 1)) == Err(p.error.value))
  }

  /** Handling one more chunk keeps the outcomes of the writes issued. */
  lemma NextKeepsOutcomes(total: nat, p: Progress, c: seq<Byte>, env: nat -> WriteOutcome)
    requires Outcomes(total, p, env)
    ensures Outcomes(total + |c|, Next(p, c, env(|p.writes|)), env)
  {
  }

  lemma {:induction false} PumpOutcomes(chunks: seq<seq<Byte>>, env: nat -> WriteOutcome)
    ensures Outcomes(TotalLength(chunks), Pump(chunks, env), env)
    decreases |chunks|
  {
    if |chunks| > 0 {
      var prefix := chunks[..|chunks| - 1];
      PumpOutcomes(prefix, env);
      NextKeepsOutcomes(TotalLength(prefix), Pump(prefix, env), chunks[|chunks| - 1], env);
    }
  }

  datatype End = Done | Errored(error: Error)

  /** Every write issued, in order, and how the stream ended. */
  datatype Run = Run(writes: seq<Write>, end: End)

  /** The `finish` listener: write the held chunk at offset 0, then `done`. */
  function Finish(p: Progress, env: nat -> WriteOutcome): (r: Run)
    ensures p.error.Some? ==> r == Run(p.writes, Errored(p.error.value))
    ensures p.error.None? && p.writer.firstChunk.None? ==> r == Run(p.writes, Done)
    ensures p.error.None? && p.writer.firstChunk.Some? ==>
              && r.writes == p.writes + [Write(0, p.writer.firstChunk.value)]
              && (r.end.Done? <==> Settle(p.writer.firstChunk.value, env(|p.writes|)).Ok?)
  {
    if p.error.Some? then Run(p.writes, Errored(p.error.value))
    else
      match p.writer.firstChunk
      case None => Run(p.writes, Done)
      case Some(first) =>
        var w := Write(0, first);
        match Settle(first, env(|p.writes|))
        case Ok(_) => Run(p.writes + [w], Done)
        case Err(e) => Run(p.writes + [w], Errored(e))
  }

  /**
   A whole run of the sink over `chunks`: at most one write per chunk, and
   none at all for an empty stream, which is done at once.
   WriteStreamOutcomes and DoneMeansImageWritten say what the writes met.
   */
  function WriteStream(chunks: seq<seq<Byte>>, env: nat -> WriteOutcome): (r: Run)
    ensures |r.writes| <= |chunks|
    ensures |chunks| == 0 ==> r == Run([], Done)
  {
    Finish(Pump(chunks, env), env)
  }

  /**
   A whole run ends in `done` exactly when every write issued was answered
   in full; otherwise the error is that of the last write, the one that
   failed. At most one write per chunk is issued.
   */
  lemma WriteStreamOutcomes(chunks: seq<seq<Byte>>, env: nat -> WriteOutcome)
    ensures var r := WriteStream(chunks, env);
            && |r.writes| <= |chunks|
            && (r.end.Done? <==> WrittenInFull(r.writes, env, 0))
            && (r.end.Errored? ==> |r.writes| > 0 && Settle(r.writes[|r.writes| - 1].data, env(|r.writes| - 1)) == Err(r.end.error))
  {
    PumpOutcomes(chunks, env);
  }

  predicate IsPrefix(a: seq<Byte>, b: seq<Byte>) {
    |a| <= |b| && b[..|a|] == a
  }

  /** The held chunk, or nothing. */
  function HeldBytes(w: Writer): seq<Byte> {
    w.firstChunk.GetOr([])
  }

  /**
   What holds after the `write` handler has taken every chunk without error:
   the position is the total length; a chunk is held exactly when one
   arrived, and it begins the image; no write so far touched offset 0; and
   the device already holds every image byte past the held chunk.
   */
  ghost predicate PumpInvariant(chunks: seq<seq<Byte>>, p: Progress, dev: Contents) {
    var image := Concat(chunks);
    var h := HeldBytes(p.writer);
    && Get(p.writer.position) == |image|
    && (p.writer.firstChunk.None? <==> |chunks| == 0)
    && IsPrefix(h, image)
    && (|image| > 0 ==> |h| > 0)
    && (forall j :: 0 <= j < |p.writes| ==> p.writes[j].offset > 0)
    && (forall i :: |h| <= i < |image| ==> i in ApplyAll(dev, p.writes) && ApplyAll(dev, p.writes)[i] == image[i])
  }

  /** Holding a chunk at position 0 keeps the invariant. */
  lemma HeldKeepsInvariant(prefix: seq<seq<Byte>>, c: seq<Byte>, p: Progress, outcome: WriteOutcome, dev: Contents)
    requires p.error.None? && PumpInvariant(prefix, p, dev)
    requires OnChunk(p.writer, c, outcome).Held?
    ensures PumpInvariant(prefix + [c], Next(p, c, outcome), dev)
  {
    var q := Next(p, c, outcome);
    ConcatAppend(prefix, [c]);
    ConcatCons(c, []);
    assert Concat(prefix) == [];
    assert Concat(prefix + [c]) == c;
    assert q.writes == p.writes;
  }

  /** Appending `c` at the end of what the device holds extends the image by `c`. */
  lemma AppendOnDevice(d: Contents, before: seq<Byte>, c: seq<Byte>, from: nat)
    requires forall i :: from <= i < |before| ==> i in d && d[i] == before[i]
    ensures var d' := Apply(d, Write(|before|, c));
            forall i :: from <= i < |before + c| ==> i in d' && d'[i] == (before + c)[i]
  {
  }

  /** A successful write at the running position keeps the invariant. */
  lemma IssuedKeepsInvariant(prefix: seq<seq<Byte>>, c: seq<Byte>, p: Progress, outcome: WriteOutcome, dev: Contents)
    requires p.error.None? && PumpInvariant(prefix, p, dev)
    requires OnChunk(p.writer, c, outcome).Issued?
    requires Next(p, c, outcome).error.None?
    ensures PumpInvariant(prefix + [c], Next(p, c, outcome), dev)
  {
    var q := Next(p, c, outcome);
    var w := OnChunk(p.writer, c, outcome).write;
    var before := Concat(prefix);
    var image := Concat(prefix + [c]);
    ConcatAppend(prefix, [c]);
    ConcatCons(c, []);
    assert image == before + c;
    assert q.writes == p.writes + [w];
    var h := HeldBytes(p.writer);
    assert HeldBytes(q.writer) == h;
    assert w == Write(|before|, c);
    ApplyAllSnoc(dev, p.writes, w);
    AppendOnDevice(ApplyAll(dev, p.writes), before, c, |h|);
    assert image[..|h|] == before[..|h|];
  }

  lemma {:induction false} PumpKeepsInvariant(chunks: seq<seq<Byte>>, env: nat -> WriteOutcome, dev: Contents)
    requires Pump(chunks, env).error.None?
    ensures PumpInvariant(chunks, Pump(chunks, env), dev)
    decreases |chunks|
  {
    if |chunks| > 0 {
      var n := |chunks| - 1;
      var prefix := chunks[..n];
      var c := chunks[n];
      assert chunks == prefix + [c];
      var p := Pump(prefix, env);
      var o := env(|p.writes|);
      assert Pump(chunks, env) == Next(p, c, o);
      assert p.error.None?;
      PumpKeepsInvariant(prefix, env, dev);
      if OnChunk(p.writer, c, o).Held? {
        HeldKeepsInvariant(prefix, c, p, o, dev);
      } else {
        IssuedKeepsInvariant(prefix, c, p, o, dev);
      }
    }
  }

  /**
   After `done`, the device holds the image: every byte in [0, total) equals
   the in-order concatenation of the chunks, exactly as a linear write would
   leave it; and the write at offset 0, if any, is the last write issued.
   */
  lemma DoneMeansImageWritten(chunks: seq<seq<Byte>>, env: nat -> WriteOutcome, dev: Contents)
    requires WriteStream(chunks, env).end.Done?
    ensures var r := WriteStream(chunks, env);
            var image := Concat(chunks);
            && (forall i :: 0 <= i < |image| ==> i in ApplyAll(dev, r.writes) && ApplyAll(dev, r.writes)[i] == image[i])
            && (|chunks| > 0 <==> |r.writes| > 0)
            && (|chunks| > 0 ==> r.writes[|r.writes| - 1].offset == 0)
            && (forall j :: 0 <= j < |r.writes| - 1 ==> r.writes[j].offset > 0)
  {
    var p := Pump(chunks, env);
    var r := WriteStream(chunks, env);
    assert p.error.None?;
    PumpKeepsInvariant(chunks, env, dev);
    if |chunks| > 0 {
      var h := p.writer.firstChunk.value;
      ApplyAllSnoc(dev, p.writes, Write(0, h));
      assert r.writes == p.writes + [Write(0, h)];
      HeldWriteCompletesImage(Concat(chunks), h, ApplyAll(dev, p.writes));
    }
  }

  /** Writing the held start of the image at offset 0 over a device holding the rest completes the image. */
  lemma HeldWriteCompletesImage(image: seq<Byte>, h: seq<Byte>, d: Contents)
    requires IsPrefix(h, image)
    requires forall i :: |h| <= i < |image| ==> i in d && d[i] == image[i]
    ensures var d' := Apply(d, Write(0, h));
            forall i :: 0 <= i < |image| ==> i in d' && d'[i] == image[i]
  {
    var d' := Apply(d, Write(0, h));
    forall i | 0 <= i < |image|
      ensures i in d' && d'[i] == image[i]
    {
      if i < |h| {
        assert image[i] == image[..|h|][i];
      }
    }
  }

  /** The writes a plain linear sink would issue: each chunk at the sum of the lengths before it. */
  function LinearWrites(chunks: seq<seq<Byte>>): (ws: seq<Write>)
    ensures |ws| == |chunks|
    decreases |chunks|
  {
    if |chunks| == 0 then []
    else
      var prefix := chunks[..|chunks| - 1];
      LinearWrites(prefix) + [Write(TotalLength(prefix), chunks[|chunks| - 1])]
  }

  lemma {:induction false} PumpIsLinearTail(chunks: seq<seq<Byte>>, env: nat -> WriteOutcome)
    requires |chunks| > 0 && |chunks[0]| > 0
    requires Pump(chunks, env).error.None?
    ensures Pump(chunks, env).writes == LinearWrites(chunks)[1..]
    ensures Pump(chunks, env).writer.firstChunk == Some(chunks[0])
    decreases |chunks|
  {
    var n := |chunks| - 1;
    var prefix := chunks[..n];
    var c := chunks[n];
    var p := Pump(prefix, env);
    assert Pump(chunks, env) == Next(p, c, env(|p.writes|));
    assert p.error.None?;
    if n == 0 {
      assert Get(p.writer.position) == 0;
    } else {
      assert prefix[0] == chunks[0];
      PumpIsLinearTail(prefix, env);
      PumpKeepsInvariant(prefix, env, map[]);
      ConcatLength(prefix);
      assert Get(p.writer.position) == TotalLength(prefix) > 0;
      var lin := LinearWrites(prefix);
      assert LinearWrites(chunks) == lin + [Write(TotalLength(prefix), c)];
      assert (lin + [Write(TotalLength(prefix), c)])[1..] == lin[1..] + [Write(TotalLength(prefix), c)];
    }
  }

  /**
   When the first chunk is not empty, the sink issues exactly the writes of a
   linear sink, in the same order, except that the write at offset 0 is moved
   from the front to the end.
   */
  lemma DeferredIsRotatedLinear(chunks: seq<seq<Byte>>, env: nat -> WriteOutcome)
    requires |chunks| > 0 && |chunks[0]| > 0
    requires WriteStream(chunks, env).end.Done?
    ensures var lin := LinearWrites(chunks);
            WriteStream(chunks, env).writes == lin[1..] + [lin[0]]
  {
    assert Pump(chunks, env).error.None?;
    PumpIsLinearTail(chunks, env);
    assert LinearWrites(chunks)[0] == Write(0, chunks[0]) by {
      FirstLinearWrite(chunks);
    }
  }

  lemma {:induction false} FirstLinearWrite(chunks: seq<seq<Byte>>)
    requires |chunks| > 0
    ensures LinearWrites(chunks)[0] == Write(0, chunks[0])
    decreases |chunks|
  {
    var n := |chunks| - 1;
    if n > 0 {
      var prefix := chunks[..n];
      FirstLinearWrite(prefix);
      assert LinearWrites(chunks)[0] == LinearWrites(prefix)[0];
    } else {
      assert chunks[..0] == [];
    }
  }

  /** With no chunk at all, `finish` emits `done` and issues no write. */
  lemma NoChunksNoWrites(env: nat -> WriteOutcome)
    ensures WriteStream([], env) == Run([], Done)
  {
  }

  /** A failed write at offset 0 on `finish` ends in `error`, never `done`. */
  lemma FailedDeferredWriteIsError(chunks: seq<seq<Byte>>, env: nat -> WriteOutcome)
    requires Pump(chunks, env).error.None? && |chunks| > 0
    requires env(|Pump(chunks, env).writes|) != Wrote(|HeldBytes(Pump(chunks, env).writer)|)
    ensures WriteStream(chunks, env).end.Errored?
  {
    PumpKeepsInvariant(chunks, env, map[]);
  }

  /**
   An empty chunk at position 0 leaves the position at 0, so the chunk after
   it is held in its place and no write is issued for either.
   */
  lemma EmptyFirstChunkIsReplaced(c: seq<Byte>, env: nat -> WriteOutcome)
    ensures var p := Pump([[], c], env);
            p.writer.firstChunk == Some(c) && p.writes == [] && Get(p.writer.position) == |c|
  {
    var e: seq<Byte> := [];
    assert [e, c][..1] == [e];
    assert [e][..0] == [];
    var p0 := Pump([], env);
    var p1 := Pump([e], env);
    assert p1 == Next(p0, e, env(0));
    assert Get(p1.writer.position) == 0;
    assert Pump([e, c], env) == Next(p1, c, env(0));
  }
}
