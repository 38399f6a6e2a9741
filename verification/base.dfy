/**
 Shared vocabulary of the model: bytes, optional values, errors as the
 library reports them (a JavaScript `Error` with an optional `code`), the
 settled state of a promise, and the concatenation of a stream's chunks.
 */
module Base {

  /** One byte of an image or of a device. */
  type Byte = bv8

  datatype Option<+T> = None | Some(value: T) {
    function GetOr(default: T): T {
      match this
      case Some(v) => v
      case None => default
    }
  }

  /** A JavaScript `Error`: `code` is absent for errors built with `new Error(message)`. */
  datatype Error = Error(code: Option<string>, message: string)

  /** Outcome of a callback-style operation: `callback()` or `callback(error)`. */
  datatype Result<+T> = Ok(value: T) | Err(error: Error) {
    predicate IsFailure() {
      Err?
    }
  }

  /** State of a promise once every scripted input has been consumed. */
  datatype Settled<+T> = Resolved(value: T) | Rejected(error: Error) | Pending

  /** A write issued to the device: `data` at byte offset `offset`. */
  datatype Write = Write(offset: int, data: seq<Byte>)

  /** The bytes of a stream, in order: its chunks laid end to end. */
  function Concat(chunks: seq<seq<Byte>>): seq<Byte>
    decreases |chunks|
  {
    if |chunks| == 0 then [] else Concat(chunks[..|chunks| - 1]) + chunks[|chunks| - 1]
  }

  /** Sum of the lengths of the chunks; the byte offset after all of them. */
  function TotalLength(chunks: seq<seq<Byte>>): nat
    decreases |chunks|
  {
    if |chunks| == 0 then 0 else TotalLength(chunks[..|chunks| - 1]) + |chunks[|chunks| - 1]|
  }

  lemma {:induction false} ConcatLength(chunks: seq<seq<Byte>>)
    ensures |Concat(chunks)| == TotalLength(chunks)
    decreases |chunks|
  {
    if |chunks| > 0 {
      ConcatLength(chunks[..|chunks| - 1]);
    }
  }

  /** Concatenation distributes over appending a chunk list. */
  lemma {:induction false} ConcatAppend(a: seq<seq<Byte>>, b: seq<seq<Byte>>)
    ensures Concat(a + b) == Concat(a) + Concat(b)
    decreases |b|
  {
    if |b| == 0 {
      assert a + b == a;
    } else {
      var n := |b| - 1;
      assert (a + b)[..|a + b| - 1] == a + b[..n];
      ConcatAppend(a, b[..n]);
    }
  }

  /** Concatenation of a list whose first chunk is split off. */
  lemma ConcatCons(c: seq<Byte>, rest: seq<seq<Byte>>)
    ensures Concat([c] + rest) == c + Concat(rest)
  {
    ConcatAppend([c], rest);
    assert [c][..0] == [];
  }
}
