/**
 The byte-offset counter kept by the read stream (`ImageStreamPosition`)
 and, with the same three operations, by the write stream
 (`getPosition`/`setPosition`/`incrementPosition`). Until it is first set
 the stored value is absent and the getter answers 0.
 */
module Position {
  import opened Base

  datatype Counter = Counter(stored: Option<int>)

  /** The value a getter reports: the stored value, or 0 when none was set. */
  function Get(c: Counter): int {
    c.stored.GetOr(0)
  }

  /** A counter that was never set. */
  function Fresh(): (c: Counter)
    ensures Get(c) == 0
  {
    Counter(None)
  }

  /** After setting `p`, the getter reports `p`, whatever was there before. */
  function Set(c: Counter, p: int): (r: Counter)
    ensures Get(r) == p
  {
    Counter(Some(p))
  }

  /** Adds exactly `offset` to the current value. */
  function Increment(c: Counter, offset: int): (r: Counter)
    ensures Get(r) == Get(c) + offset
    ensures offset >= 0 ==> Get(r) >= Get(c)
  {
    Set(c, Get(c) + offset)
  }

  /** Increments once per chunk by that chunk's length, in order. */
  function AdvanceBy(c: Counter, chunks: seq<seq<Byte>>): (r: Counter)
    ensures Get(r) == Get(c) + TotalLength(chunks)
    decreases |chunks|
  {
    if |chunks| == 0 then c
    else Increment(AdvanceBy(c, chunks[..|chunks| - 1]), |chunks[|chunks| - 1]|)
  }

  lemma {:induction false} TotalLengthPrefix(chunks: seq<seq<Byte>>, k: nat)
    requires k <= |chunks|
    ensures TotalLength(chunks[..k]) <= TotalLength(chunks)
    decreases |chunks|
  {
    if k < |chunks| {
      var n := |chunks| - 1;
      assert chunks[..n][..k] == chunks[..k];
      TotalLengthPrefix(chunks[..n], k);
    } else {
      assert chunks[..k] == chunks;
    }
  }

  /** Lengths are never negative, so the counter never goes backwards. */
  lemma AdvanceMonotone(c: Counter, chunks: seq<seq<Byte>>, k: nat)
    requires k <= |chunks|
    ensures Get(c) <= Get(AdvanceBy(c, chunks[..k])) <= Get(AdvanceBy(c, chunks))
  {
    TotalLengthPrefix(chunks, k);
  }
}
