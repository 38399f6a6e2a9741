/**
 The block device as the bytes it holds, keyed by offset, and the effect of
 a sequence of successful writes on it.
 */
module Device {
  import opened Base

  type Contents = map<int, Byte>

  /** The offsets [lo, lo + n). */
  function Span(lo: int, n: nat): (s: set<int>)
    ensures forall i :: i in s <==> lo <= i < lo + n
    decreases n
  {
    if n == 0 then {} else Span(lo, n - 1) + {lo + n - 1}
  }

  /** Writing `w.data` at `w.offset`: those bytes change, every other one stays. */
  function Apply(dev: Contents, w: Write): (r: Contents)
    ensures forall i :: w.offset <= i < w.offset + |w.data| ==> i in r && r[i] == w.data[i - w.offset]
    ensures forall i :: (i < w.offset || w.offset + |w.data| <= i) ==> (i in r <==> i in dev)
    ensures forall i :: (i < w.offset || w.offset + |w.data| <= i) && i in dev ==> r[i] == dev[i]
  {
    map i | i in dev.Keys + Span(w.offset, |w.data|) :: if w.offset <= i < w.offset + |w.data| then w.data[i - w.offset] else dev[i]
  }

  /** The writes applied in the order they were issued. */
  function ApplyAll(dev: Contents, ws: seq<Write>): Contents
    decreases |ws|
  {
    if |ws| == 0 then dev else Apply(ApplyAll(dev, ws[..|ws| - 1]), ws[|ws| - 1])
  }

  lemma ApplyAllSnoc(dev: Contents, ws: seq<Write>, w: Write)
    ensures ApplyAll(dev, ws + [w]) == Apply(ApplyAll(dev, ws), w)
  {
    assert (ws + [w])[..|ws|] == ws;
  }
}
