/** Address-ordered block lists: the abstract view shared by the two general
    purpose allocators. A block is a header of `h` words followed by `size` data
    words; offsets and sizes are counted in 32-bit words. */
module Tiling {
  import opened Memory

  datatype Block = Block(off: nat, size: nat, used: bool)

  /** The offset at which block i ends, as the header's `next` field records it. */
  function NextOff(bs: seq<Block>, i: nat, hi: nat): nat
    requires i < |bs|
  {
    if i + 1 < |bs| then bs[i + 1].off else hi
  }

  /** The blocks fill [lo, hi) without gap or overlap. */
  ghost predicate Tiled(bs: seq<Block>, h: nat, lo: nat, hi: nat) {
    && |bs| > 0
    && bs[0].off == lo
    && forall i {:trigger NextOff(bs, i, hi)} :: 0 <= i < |bs| ==> NextOff(bs, i, hi) == bs[i].off + h + bs[i].size
  }

  predicate NotBothFree(bs: seq<Block>, i: nat)
    requires 0 < i < |bs|
  {
    bs[i - 1].used || bs[i].used
  }

  /** No two neighbours are both free. */
  ghost predicate Coalesced(bs: seq<Block>) {
    forall i {:trigger NotBothFree(bs, i)} :: 0 < i < |bs| ==> NotBothFree(bs, i)
  }

  /** Cut block i into a used block of n words and a free remainder. */
  function Split(bs: seq<Block>, i: nat, n: nat, h: nat): (r: seq<Block>)
    requires i < |bs| && n + h <= bs[i].size
    ensures |r| == |bs| + 1
    ensures forall k {:trigger r[k]} :: 0 <= k < i ==> r[k] == bs[k]
    ensures forall k {:trigger r[k]} :: i + 2 <= k < |r| ==> r[k] == bs[k - 1]
  {
    bs[..i] + [Block(bs[i].off, n, true), Block(bs[i].off + h + n, bs[i].size - n - h, false)] + bs[i + 1..]
  }

  function Mark(bs: seq<Block>, i: nat, used: bool): seq<Block>
    requires i < |bs|
  {
    bs[i := bs[i].(used := used)]
  }

  /** Block i swallows its right neighbour. */
  function Absorb(bs: seq<Block>, i: nat, h: nat): (r: seq<Block>)
    requires i + 1 < |bs|
    ensures |r| == |bs| - 1
    ensures forall k {:trigger r[k]} :: 0 <= k < i ==> r[k] == bs[k]
    ensures forall k {:trigger r[k]} :: i + 1 <= k < |r| ==> r[k] == bs[k + 1]
  {
    bs[..i] + [Block(bs[i].off, bs[i].size + h + bs[i + 1].size, bs[i].used)] + bs[i + 2..]
  }

  function PlugNext(bs: seq<Block>, i: nat, h: nat): seq<Block>
    requires i < |bs|
  {
    if i + 1 < |bs| && !bs[i + 1].used then Absorb(bs, i, h) else bs
  }

  function PlugPrev(bs: seq<Block>, i: nat, h: nat): seq<Block>
    requires i < |bs|
  {
    if i > 0 && !bs[i - 1].used then Absorb(bs, i - 1, h) else bs
  }

  /** Merge the free block i with the free blocks on either side of it. */
  function Coalesce(bs: seq<Block>, i: nat, h: nat): seq<Block>
    requires i < |bs|
  {
    PlugPrev(PlugNext(bs, i, h), i, h)
  }

  /** Index of the first free block at or after k, or |bs|. */
  function FirstFree(bs: seq<Block>, k: nat): (r: nat)
    requires k <= |bs|
    ensures k <= r <= |bs|
    ensures r < |bs| ==> !bs[r].used
    decreases |bs| - k
  {
    if k == |bs| || !bs[k].used then k else FirstFree(bs, k + 1)
  }

  lemma {:induction false} BeforeFirstFree(bs: seq<Block>, k: nat, j: nat)
    requires k <= |bs| && k <= j < FirstFree(bs, k)
    ensures bs[j].used
    decreases j - k
  {
    if k < j { BeforeFirstFree(bs, k + 1, j); }
  }

  /** First block at or behind an offset. */
  function IndexFrom(bs: seq<Block>, off: nat, k: nat): (r: nat)
    requires k <= |bs|
    ensures k <= r <= |bs|
    ensures r < |bs| ==> bs[r].off >= off
    decreases |bs| - k
  {
    if k == |bs| || bs[k].off >= off then k else IndexFrom(bs, off, k + 1)
  }

  /** Data words in free blocks. */
  function FreeData(bs: seq<Block>): nat {
    if bs == [] then 0 else FreeData(bs[..|bs| - 1]) + (if bs[|bs| - 1].used then 0 else bs[|bs| - 1].size)
  }

  /** Words, headers included, taken by used blocks. */
  function UsedSpan(bs: seq<Block>, h: nat): nat {
    if bs == [] then 0 else UsedSpan(bs[..|bs| - 1], h) + (if bs[|bs| - 1].used then h + bs[|bs| - 1].size else 0)
  }

  /** Blocks further along start behind the end of earlier ones: used for every
      disjointness argument. */
  lemma {:induction false} Ordered(bs: seq<Block>, h: nat, lo: nat, hi: nat, i: nat, j: nat)
    requires Tiled(bs, h, lo, hi) && i < j < |bs|
    ensures bs[i].off + h + bs[i].size <= bs[j].off
    ensures bs[j].off + h + bs[j].size <= hi
    decreases j - i, |bs| - j
  {
    assert NextOff(bs, i, hi) == bs[i].off + h + bs[i].size;
    assert NextOff(bs, j, hi) == bs[j].off + h + bs[j].size;
    if i + 1 < j {
      Ordered(bs, h, lo, hi, i + 1, j);
    } else if j + 1 < |bs| {
      EndBound(bs, h, lo, hi, j);
    }
  }

  lemma {:induction false} EndBound(bs: seq<Block>, h: nat, lo: nat, hi: nat, j: nat)
    requires Tiled(bs, h, lo, hi) && j < |bs|
    ensures lo <= bs[j].off && bs[j].off + h + bs[j].size <= hi
    decreases |bs| - j
  {
    assert NextOff(bs, j, hi) == bs[j].off + h + bs[j].size;
    if j + 1 < |bs| { EndBound(bs, h, lo, hi, j + 1); }
    StartBound(bs, h, lo, hi, j);
  }

  lemma {:induction false} StartBound(bs: seq<Block>, h: nat, lo: nat, hi: nat, j: nat)
    requires Tiled(bs, h, lo, hi) && j < |bs|
    ensures lo <= bs[j].off
  {
    if j > 0 {
      assert NextOff(bs, j - 1, hi) == bs[j - 1].off + h + bs[j - 1].size;
      StartBound(bs, h, lo, hi, j - 1);
    }
  }

  lemma {:induction false} BeforeIndex(bs: seq<Block>, off: nat, k: nat, j: nat)
    requires k <= |bs| && k <= j < IndexFrom(bs, off, k)
    ensures bs[j].off < off
    decreases j - k
  {
    if k < j { BeforeIndex(bs, off, k + 1, j); }
  }

  lemma IndexIs(bs: seq<Block>, h: nat, lo: nat, hi: nat, off: nat, k: nat)
    requires Tiled(bs, h, lo, hi) && k <= |bs| && off == (if k < |bs| then bs[k].off else hi)
    requires h > 0
    ensures IndexFrom(bs, off, 0) == k
  {
    var r := IndexFrom(bs, off, 0);
    if r < k < |bs| { Ordered(bs, h, lo, hi, r, k); }
    if k < r { BeforeIndex(bs, off, 0, k); }
    if r < k == |bs| { EndBound(bs, h, lo, hi, r); }
  }

  lemma SplitKeeps(bs: seq<Block>, i: nat, n: nat, h: nat, lo: nat, hi: nat)
    requires Tiled(bs, h, lo, hi) && i < |bs| && n + h <= bs[i].size
    ensures Tiled(Split(bs, i, n, h), h, lo, hi)
  {
    var r := Split(bs, i, n, h);
    forall k | 0 <= k < |r|
      ensures NextOff(r, k, hi) == r[k].off + h + r[k].size
    {
      if k < i { assert NextOff(r, k, hi) == NextOff(bs, k, hi); }
      else if k >= i + 2 { assert NextOff(r, k, hi) == NextOff(bs, k - 1, hi); }
      else { assert NextOff(bs, i, hi) == bs[i].off + h + bs[i].size; }
    }
  }

  lemma AbsorbKeeps(bs: seq<Block>, i: nat, h: nat, lo: nat, hi: nat)
    requires Tiled(bs, h, lo, hi) && i + 1 < |bs|
    ensures Tiled(Absorb(bs, i, h), h, lo, hi)
  {
    var r := Absorb(bs, i, h);
    assert NextOff(bs, i, hi) == bs[i].off + h + bs[i].size;
    assert NextOff(bs, i + 1, hi) == bs[i + 1].off + h + bs[i + 1].size;
    forall k | 0 <= k < |r|
      ensures NextOff(r, k, hi) == r[k].off + h + r[k].size
    {
      if k < i { assert NextOff(r, k, hi) == NextOff(bs, k, hi); }
      else if k > i { assert NextOff(r, k, hi) == NextOff(bs, k + 1, hi); }
    }
  }

  lemma MarkKeeps(bs: seq<Block>, i: nat, used: bool, h: nat, lo: nat, hi: nat)
    requires Tiled(bs, h, lo, hi) && i < |bs|
    ensures Tiled(Mark(bs, i, used), h, lo, hi)
  {
    var r := Mark(bs, i, used);
    forall k | 0 <= k < |r|
      ensures NextOff(r, k, hi) == r[k].off + h + r[k].size
    {
      assert NextOff(bs, k, hi) == bs[k].off + h + bs[k].size;
    }
  }

  /** Plugging the holes around one free block restores "no two free neighbours". */
  lemma CoalesceKeeps(bs: seq<Block>, i: nat, h: nat, lo: nat, hi: nat)
    requires Tiled(bs, h, lo, hi) && i < |bs| && !bs[i].used
    requires forall k {:trigger NotBothFree(bs, k)} :: 0 < k < |bs| && k != i && k != i + 1 ==> NotBothFree(bs, k)
    ensures Tiled(Coalesce(bs, i, h), h, lo, hi)
    ensures Coalesced(Coalesce(bs, i, h))
  {
    var b1 := PlugNext(bs, i, h);
    if i + 1 < |bs| && !bs[i + 1].used { AbsorbKeeps(bs, i, h, lo, hi); }
    var d := if b1 == bs then 0 else 1;
    forall k | 0 < k < |b1| && k != i
      ensures NotBothFree(b1, k)
    {
      if k < i { assert NotBothFree(bs, k); }
      else if k + d != i + 1 { assert NotBothFree(bs, k + d); }
    }
    if i > 0 && !b1[i - 1].used {
      AbsorbKeeps(b1, i - 1, h, lo, hi);
      var b2 := Absorb(b1, i - 1, h);
      forall k | 0 < k < |b2|
        ensures NotBothFree(b2, k)
      {
        assert if k < i then NotBothFree(b1, k) else NotBothFree(b1, k + 1);
      }
    }
  }

  lemma SplitCoalesced(bs: seq<Block>, i: nat, n: nat, h: nat)
    requires Coalesced(bs) && i < |bs| && !bs[i].used && n + h <= bs[i].size
    ensures Coalesced(Split(bs, i, n, h))
  {
    var r := Split(bs, i, n, h);
    forall j | 0 < j < |r|
      ensures NotBothFree(r, j)
    {
      if j <= i { assert NotBothFree(bs, j); }
      if j > i + 1 { assert NotBothFree(bs, j - 1); }
    }
  }

  lemma MarkCoalesced(bs: seq<Block>, i: nat)
    requires Coalesced(bs) && i < |bs|
    ensures Coalesced(Mark(bs, i, true))
  {
    var r := Mark(bs, i, true);
    forall j | 0 < j < |r|
      ensures NotBothFree(r, j)
    {
      assert NotBothFree(bs, j);
    }
  }

  /** Undoing an allocation: cutting a block and then releasing the front part
      gives back the very same list of blocks. */
  lemma ReleaseUndoesSplit(bs: seq<Block>, i: nat, n: nat, h: nat)
    requires Coalesced(bs) && i < |bs| && !bs[i].used && n + h <= bs[i].size
    ensures Coalesce(Mark(Split(bs, i, n, h), i, false), i, h) == bs
  {
    var s := Mark(Split(bs, i, n, h), i, false);
    assert !s[i + 1].used;
    assert PlugNext(s, i, h) == bs;
    assert i > 0 ==> NotBothFree(bs, i);
  }

  lemma ReleaseUndoesMark(bs: seq<Block>, i: nat, h: nat)
    requires Coalesced(bs) && i < |bs| && !bs[i].used
    ensures Coalesce(Mark(Mark(bs, i, true), i, false), i, h) == bs
  {
    assert Mark(Mark(bs, i, true), i, false) == bs;
    assert i > 0 ==> NotBothFree(bs, i);
    assert i + 1 < |bs| ==> NotBothFree(bs, i + 1);
  }

  /** Once nothing is in use the whole region is one block again, whatever the
      order of the releases was. */
  lemma AllFreeIsWhole(bs: seq<Block>, h: nat, lo: nat, hi: nat)
    requires Tiled(bs, h, lo, hi) && Coalesced(bs)
    ensures (forall i {:trigger bs[i]} :: 0 <= i < |bs| ==> !bs[i].used)
            ==> lo + h <= hi && bs == [Block(lo, hi - lo - h, false)]
  {
    if |bs| > 1 { assert NotBothFree(bs, 1); }
    assert NextOff(bs, 0, hi) == bs[0].off + h + bs[0].size;
  }

  lemma {:induction false} SumsAppend(a: seq<Block>, b: seq<Block>, h: nat)
    ensures FreeData(a + b) == FreeData(a) + FreeData(b)
    ensures UsedSpan(a + b, h) == UsedSpan(a, h) + UsedSpan(b, h)
  {
    if b == [] {
      assert a + b == a;
    } else {
      SumsAppend(a, b[..|b| - 1], h);
      assert (a + b)[..|a + b| - 1] == a + b[..|b| - 1];
    }
  }

  /** Replacing the middle of a list changes the sums by the difference of the
      middles. */
  lemma SumsSplice(a: seq<Block>, m: seq<Block>, c: seq<Block>, h: nat)
    ensures FreeData(a + m + c) == FreeData(a) + FreeData(m) + FreeData(c)
    ensures UsedSpan(a + m + c, h) == UsedSpan(a, h) + UsedSpan(m, h) + UsedSpan(c, h)
  {
    SumsAppend(a + m, c, h);
    SumsAppend(a, m, h);
  }

  lemma SumsOne(b: Block, h: nat)
    ensures FreeData([b]) == (if b.used then 0 else b.size)
    ensures UsedSpan([b], h) == (if b.used then h + b.size else 0)
  {
    assert [b][..0] == [];
  }

  lemma SumsTwo(b: Block, c: Block, h: nat)
    ensures FreeData([b, c]) == FreeData([b]) + FreeData([c])
    ensures UsedSpan([b, c], h) == UsedSpan([b], h) + UsedSpan([c], h)
  {
    assert [b, c] == [b] + [c];
    SumsAppend([b], [c], h);
  }

  lemma SplitSums(bs: seq<Block>, i: nat, n: nat, h: nat)
    requires i < |bs| && n + h <= bs[i].size
    ensures UsedSpan(Split(bs, i, n, h), h) == UsedSpan(bs, h) + n + h - (if bs[i].used then h + bs[i].size else 0)
    ensures FreeData(Split(bs, i, n, h)) + (if bs[i].used then 0 else bs[i].size) == FreeData(bs) + bs[i].size - n - h
  {
    var m := [Block(bs[i].off, n, true), Block(bs[i].off + h + n, bs[i].size - n - h, false)];
    SumsSplice(bs[..i], m, bs[i + 1..], h);
    SumsTwo(m[0], m[1], h);
    SumsOne(m[0], h);
    SumsOne(m[1], h);
    SumsAt(bs, i, h);
  }

  lemma SumsAt(bs: seq<Block>, i: nat, h: nat)
    requires i < |bs|
    ensures UsedSpan(bs, h) ==
        UsedSpan(bs[..i], h) + UsedSpan(bs[i + 1..], h) + (if bs[i].used then h + bs[i].size else 0)
    ensures FreeData(bs) == FreeData(bs[..i]) + FreeData(bs[i + 1..]) + (if bs[i].used then 0 else bs[i].size)
  {
    assert bs == bs[..i] + [bs[i]] + bs[i + 1..];
    SumsSplice(bs[..i], [bs[i]], bs[i + 1..], h);
    SumsOne(bs[i], h);
  }

  lemma MarkSums(bs: seq<Block>, i: nat, used: bool, h: nat)
    requires i < |bs|
    ensures UsedSpan(Mark(bs, i, used), h) == UsedSpan(bs, h) - (if bs[i].used then h + bs[i].size else 0)
                                              + (if used then h + bs[i].size else 0)
    ensures FreeData(Mark(bs, i, used)) == FreeData(bs) - (if bs[i].used then 0 else bs[i].size)
                                           + (if used then 0 else bs[i].size)
  {
    SumsAt(bs, i, h);
    var r := Mark(bs, i, used);
    SumsAt(r, i, h);
    assert r[..i] == bs[..i] && r[i + 1..] == bs[i + 1..];
  }

  lemma AbsorbSums(bs: seq<Block>, i: nat, h: nat)
    requires i + 1 < |bs| && !bs[i].used && !bs[i + 1].used
    ensures UsedSpan(Absorb(bs, i, h), h) == UsedSpan(bs, h)
    ensures FreeData(Absorb(bs, i, h)) == FreeData(bs) + h
  {
    var m := [Block(bs[i].off, bs[i].size + h + bs[i + 1].size, bs[i].used)];
    SumsSplice(bs[..i], m, bs[i + 2..], h);
    SumsOne(m[0], h);
    SumsAt(bs, i, h);
    SumsAt(bs[i + 1..], 0, h);
    assert bs[i + 1..][..0] == [] && bs[i + 1..][1..] == bs[i + 2..];
  }

  lemma CoalesceSums(bs: seq<Block>, i: nat, h: nat)
    requires i < |bs| && !bs[i].used
    ensures UsedSpan(Coalesce(bs, i, h), h) == UsedSpan(bs, h)
    ensures FreeData(Coalesce(bs, i, h)) == FreeData(bs)
              + (if i + 1 < |bs| && !bs[i + 1].used then h else 0)
              + (if i > 0 && !bs[i - 1].used then h else 0)
  {
    if i + 1 < |bs| && !bs[i + 1].used { AbsorbSums(bs, i, h); }
    var b1 := PlugNext(bs, i, h);
    if i > 0 && !b1[i - 1].used { AbsorbSums(b1, i - 1, h); }
  }

  // ---------------------------------------------------------------- which blocks are in use

  /** b is one of the blocks other than block i. */
  predicate Beside(bs: seq<Block>, i: nat, b: Block)
    requires i < |bs|
  {
    b in bs[..i] || b in bs[i + 1..]
  }

  lemma AllBut(bs: seq<Block>, i: nat, b: Block)
    requires i < |bs|
    ensures b in bs <==> b == bs[i] || Beside(bs, i, b)
  {
    assert bs == bs[..i] + [bs[i]] + bs[i + 1..];
  }

  lemma BesideIff(bs: seq<Block>, h: nat, lo: nat, hi: nat, i: nat, b: Block)
    requires Tiled(bs, h, lo, hi) && h > 0 && i < |bs|
    ensures Beside(bs, i, b) <==> b in bs && b.off != bs[i].off
  {
    AllBut(bs, i, b);
    if b in bs[..i] {
      var j :| 0 <= j < i && bs[..i][j] == b;
      Ordered(bs, h, lo, hi, j, i);
    }
    if b in bs[i + 1..] {
      var j :| 0 <= j < |bs[i + 1..]| && bs[i + 1..][j] == b;
      Ordered(bs, h, lo, hi, i, i + 1 + j);
    }
  }

  lemma SplitUsed(bs: seq<Block>, i: nat, n: nat, h: nat, b: Block)
    requires i < |bs| && n + h <= bs[i].size && b.used
    ensures b in Split(bs, i, n, h) <==> b == Block(bs[i].off, n, true) || Beside(bs, i, b)
  {
  }

  lemma MarkUsed(bs: seq<Block>, i: nat, used: bool, b: Block)
    requires i < |bs| && b.used
    ensures b in Mark(bs, i, used) <==> (used && b == bs[i].(used := true)) || Beside(bs, i, b)
  {
    var r := Mark(bs, i, used);
    assert r == bs[..i] + [bs[i].(used := used)] + bs[i + 1..];
  }

  lemma AbsorbUsed(bs: seq<Block>, i: nat, h: nat, b: Block)
    requires i + 1 < |bs| && !bs[i + 1].used && b.used
    ensures b in Absorb(bs, i, h)
        <==> (bs[i].used && b == Block(bs[i].off, bs[i].size + h + bs[i + 1].size, true)) || Beside(bs, i, b)
  {
    assert bs[i + 1..] == [bs[i + 1]] + bs[i + 2..];
  }

  /** Merging free blocks neither adds nor removes a used one. */
  lemma CoalesceUsed(bs: seq<Block>, i: nat, h: nat, b: Block)
    requires i < |bs| && !bs[i].used && b.used
    ensures b in PlugNext(bs, i, h) <==> b in bs
    ensures b in Coalesce(bs, i, h) <==> b in bs
  {
    AllBut(bs, i, b);
    if i + 1 < |bs| && !bs[i + 1].used { AbsorbUsed(bs, i, h, b); }
    var b1 := PlugNext(bs, i, h);
    if i > 0 && !b1[i - 1].used {
      AllBut(b1, i - 1, b);
      AbsorbUsed(b1, i - 1, h, b);
    }
  }

  // ---------------------------------------------------------------- who owns a word

  predicate InData(b: Block, h: nat, k: int) {
    b.used && b.off + h <= k < b.off + h + b.size
  }

  /** Word k lies in the data area of a used block. */
  ghost predicate UserWord(bs: seq<Block>, h: nat, k: int) {
    exists i {:trigger InData(bs[i], h, k)} :: 0 <= i < |bs| && InData(bs[i], h, k)
  }

  /** Every word that is user data before and after a step is unchanged by it: the
      frame of an allocator operation. */
  ghost predicate Kept(w: seq<int>, w': seq<int>, b0: seq<Block>, b1: seq<Block>, h: nat) {
    && |w| == |w'|
    && forall k {:trigger w'[k]} :: 0 <= k < |w| && UserWord(b0, h, k) && UserWord(b1, h, k) ==> w'[k] == w[k]
  }

  /** Headers, and the insides of free blocks, are nobody's data. */
  lemma NotUser(bs: seq<Block>, h: nat, lo: nat, hi: nat, i: nat, k: int)
    requires Tiled(bs, h, lo, hi) && i <= |bs|
    requires if i < |bs| then bs[i].off <= k < bs[i].off + h + (if bs[i].used then 0 else bs[i].size) else hi <= k
    ensures !UserWord(bs, h, k)
  {
    forall j | 0 <= j < |bs| && InData(bs[j], h, k)
      ensures false
    {
      if j < i < |bs| { Ordered(bs, h, lo, hi, j, i); }
      if i < j { Ordered(bs, h, lo, hi, i, j); }
      if i == |bs| { EndBound(bs, h, lo, hi, j); }
    }
  }

  lemma AbsorbUser(bs: seq<Block>, h: nat, i: nat, k: int)
    requires i + 1 < |bs| && !bs[i].used && !bs[i + 1].used
    ensures UserWord(Absorb(bs, i, h), h, k) <==> UserWord(bs, h, k)
  {
    var r := Absorb(bs, i, h);
    if UserWord(bs, h, k) {
      var j :| 0 <= j < |bs| && InData(bs[j], h, k);
      assert InData(r[if j < i then j else j - 1], h, k);
    }
    if UserWord(r, h, k) {
      var j :| 0 <= j < |r| && InData(r[j], h, k);
      assert InData(bs[if j < i then j else j + 1], h, k);
    }
  }

  lemma CoalesceUser(bs: seq<Block>, h: nat, i: nat, k: int)
    requires i < |bs| && !bs[i].used
    ensures UserWord(Coalesce(bs, i, h), h, k) <==> UserWord(bs, h, k)
  {
    if i + 1 < |bs| && !bs[i + 1].used { AbsorbUser(bs, h, i, k); }
    var b1 := PlugNext(bs, i, h);
    if i > 0 && !b1[i - 1].used { AbsorbUser(b1, h, i - 1, k); }
  }

  lemma MarkUser(bs: seq<Block>, h: nat, i: nat, used: bool, k: int)
    requires i < |bs|
    ensures used && UserWord(bs, h, k) ==> UserWord(Mark(bs, i, used), h, k)
    ensures !used && UserWord(Mark(bs, i, used), h, k) ==> UserWord(bs, h, k)
  {
    var r := Mark(bs, i, used);
    if used && UserWord(bs, h, k) {
      var j :| 0 <= j < |bs| && InData(bs[j], h, k);
      assert InData(r[j], h, k);
    }
    if !used && UserWord(r, h, k) {
      var j :| 0 <= j < |r| && InData(r[j], h, k);
      assert InData(bs[j], h, k);
    }
  }

  /** Releasing block i leaves every other used block's words in use. */
  lemma OthersStay(bs: seq<Block>, h: nat, i: nat, j: nat, k: int)
    requires i < |bs| && j < |bs| && i != j && InData(bs[j], h, k)
    ensures UserWord(Coalesce(Mark(bs, i, false), i, h), h, k)
  {
    assert InData(Mark(bs, i, false)[j], h, k);
    CoalesceUser(Mark(bs, i, false), h, i, k);
  }

  /** What Kept means for one block that is in use before and after. */
  lemma KeptBlock(w: seq<int>, w': seq<int>, b0: seq<Block>, b1: seq<Block>, h: nat, b: Block)
    requires Kept(w, w', b0, b1, h) && b in b0 && b in b1 && b.used && b.off + h + b.size <= |w|
    ensures w'[b.off + h..b.off + h + b.size] == w[b.off + h..b.off + h + b.size]
  {
    var i :| 0 <= i < |b0| && b0[i] == b;
    var j :| 0 <= j < |b1| && b1[j] == b;
    forall k | b.off + h <= k < b.off + h + b.size
      ensures w'[k] == w[k]
    {
      assert InData(b0[i], h, k) && InData(b1[j], h, k);
    }
  }

  lemma KeptRefl(w: seq<int>, bs: seq<Block>, h: nat)
    ensures Kept(w, w, bs, bs, h)
  {
  }

  /** A block in use before and after, at the same place: its first c words stay. */
  lemma SliceKept(w: seq<int>, w': seq<int>, b0: seq<Block>, b1: seq<Block>, h: nat, i: nat, j: nat, c: nat)
    requires Kept(w, w', b0, b1, h) && i < |b0| && j < |b1| && b0[i].used && b1[j].used && b0[i].off == b1[j].off
    requires c <= b0[i].size && c <= b1[j].size
    ensures Slice(w', b0[i].off + h, c) == Slice(w, b0[i].off + h, c)
  {
    var q := b0[i].off + h;
    if q + c <= |w| {
      forall k | q <= k < q + c
        ensures w'[k] == w[k]
      {
        assert InData(b0[i], h, k) && InData(b1[j], h, k);
      }
    }
  }

  /** Data is as before outside the c words written at q. */
  ghost predicate Moved(w: seq<int>, w': seq<int>, b0: seq<Block>, b1: seq<Block>, h: nat, q: nat, c: nat) {
    && |w| == |w'|
    && forall k {:trigger w'[k]} ::
        0 <= k < |w| && UserWord(b1, h, k) && (k < q || q + c <= k) ==> UserWord(b0, h, k) && w'[k] == w[k]
  }

  /** A copy into block j, and then the release of block i. */
  lemma MovedByRelease(w0: seq<int>, w1: seq<int>, w2: seq<int>, b0: seq<Block>, i: nat, j: nat, b1: seq<Block>, h: nat,
      from: nat, q: nat, c: nat)
    requires i < |b0| && j < |b0| && i != j && b0[j].used && b0[j].off + h == q && c <= b0[j].size
    requires b1 == Coalesce(Mark(b0, i, false), i, h) && Kept(w1, w2, b0, b1, h)
    requires forall k {:trigger UserWord(b1, h, k)} :: UserWord(b1, h, k) ==> UserWord(b0, h, k)
    requires from + c <= |w0| && q + c <= |w0| && w1 == Overlay(w0, q, w0[from..from + c])
    ensures Moved(w0, w2, b0, b1, h, q, c)
    ensures Slice(w2, q, c) == Slice(w0, from, c)
  {
    forall k | q <= k < q + c
      ensures w2[k] == w1[k]
    {
      assert InData(b0[j], h, k);
      OthersStay(b0, h, i, j, k);
    }
  }

  /** An allocation out of the free block l, and then a move into it. */
  lemma KeptByMove(w0: seq<int>, w1: seq<int>, w2: seq<int>, b0: seq<Block>, l: nat, b1: seq<Block>, b2: seq<Block>,
      h: nat, lo: nat, hi: nat, c: nat)
    requires Tiled(b0, h, lo, hi) && l < |b0| && !b0[l].used && c <= b0[l].size
    requires Kept(w0, w1, b0, b1, h) && Moved(w1, w2, b1, b2, h, b0[l].off + h, c)
    ensures Kept(w0, w2, b0, b2, h)
  {
    var q := b0[l].off + h;
    forall a {:trigger w2[a]} | 0 <= a < |w0| && UserWord(b0, h, a) && UserWord(b2, h, a)
      ensures w2[a] == w0[a]
    {
      if q <= a < q + c {
        NotUser(b0, h, lo, hi, l, a);
      } else {
        assert w2[a] == w1[a] && w1[a] == w0[a];
      }
    }
  }
}
