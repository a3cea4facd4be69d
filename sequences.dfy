/** Python's sequence idioms used by the batching and search code. */
module Sequences {
  import opened Wrappers

  /** Where a Python slice bound `i` lands in a sequence of length `n`:
      negative bounds count from the end, and both ends are clamped. */
  function SliceBound(i: int, n: nat): (k: nat)
    ensures k <= n
    ensures 0 <= i <= n ==> k == i
    ensures i > n ==> k == n
    ensures i < 0 ==> k == (if i + n < 0 then 0 else i + n)
  {
    if i < 0 then (if i + n < 0 then 0 else i + n) else if i > n then n else i
  }

  /** `s[start:stop]`: empty when the clamped bounds cross. */
  function PySlice<T>(s: seq<T>, start: int, stop: int): (r: seq<T>)
    ensures 0 <= start <= stop ==> r == s[Min(start, |s|)..Min(stop, |s|)]
    ensures |r| <= |s|
  {
    var lo, hi := SliceBound(start, |s|), SliceBound(stop, |s|);
    if lo < hi then s[lo..hi] else []
  }

  /** `[f(x) for x in xs]`. */
  function MapSeq<A, B>(f: A -> B, xs: seq<A>): (r: seq<B>)
    ensures |r| == |xs|
  {
    seq(|xs|, i requires 0 <= i < |xs| => f(xs[i]))
  }

  lemma MapSeqAppend<A, B>(f: A -> B, xs: seq<A>, ys: seq<A>)
    ensures MapSeq(f, xs + ys) == MapSeq(f, xs) + MapSeq(f, ys)
  {
  }

  /** The elements of `xss`, one sequence after another. */
  function Flatten<T>(xss: seq<seq<T>>): seq<T> {
    if xss == [] then [] else Flatten(xss[..|xss| - 1]) + xss[|xss| - 1]
  }

  lemma FlattenSnoc<T>(xss: seq<seq<T>>, xs: seq<T>)
    ensures Flatten(xss + [xs]) == Flatten(xss) + xs
  {
    assert (xss + [xs])[..|xss|] == xss;
  }

  lemma MapSeqSnoc<A, B>(f: A -> B, xs: seq<A>, x: A)
    ensures MapSeq(f, xs + [x]) == MapSeq(f, xs) + [f(x)]
  {
    MapSeqAppend(f, xs, [x]);
  }
}
