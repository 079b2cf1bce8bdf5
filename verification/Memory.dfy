/** Memory as a sequence of 32-bit words. */
module Memory {
  /** One word written. */
  function Put(w: seq<int>, a: int, v: int): (r: seq<int>)
    ensures |r| == |w|
    ensures forall k {:trigger r[k]} :: 0 <= k < |w| ==> r[k] == if k == a then v else w[k]
  {
    if 0 <= a < |w| then w[a := v] else w
  }

  /** n words from a on. */
  function Slice(w: seq<int>, a: nat, n: nat): seq<int> { if a + n <= |w| then w[a..a + n] else [] }

  /** The words from a on replaced by xs. */
  function Overlay(w: seq<int>, a: nat, xs: seq<int>): (r: seq<int>)
    requires a + |xs| <= |w|
    ensures |r| == |w|
    ensures forall k {:trigger r[k]} :: 0 <= k < |w| ==> r[k] == if a <= k < a + |xs| then xs[k - a] else w[k]
  {
    w[..a] + xs + w[a + |xs|..]
  }
}
