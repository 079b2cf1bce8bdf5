/** rt-thread/src/mem.c, specification: what rt_malloc, rt_free and rt_realloc do to
    the address-ordered list of blocks and to the lowest-free hint. Offsets and
    sizes are in 32-bit words: all of the source's are multiples of four bytes. */
module SmallHeapSpec {
  import opened Common
  import opened Tiling

  const HEADER: nat := 3               // SIZEOF_STRUCT_MEM
  const MIN_DATA: nat := 3             // MIN_SIZE_ALIGNED

  /** blocks are those before heap_end; m, below, is mem_size_aligned. */
  datatype State = State(blocks: seq<Block>, lfree: nat, usedMem: nat, maxMem: nat)

  function OffAt(bs: seq<Block>, k: nat, hi: nat): nat
    requires k <= |bs|
  {
    if k < |bs| then bs[k].off else hi
  }

  /** What the search loop accepts. The last conjunct is the loop guard: an exact
      fit that ends at heap_end is never considered. */
  predicate Fits(b: Block, n: nat, m: nat) {
    !b.used && b.size >= n && b.off + n < m
  }

  /** First block from k on that fits, or |bs|. */
  function Find(bs: seq<Block>, k: nat, n: nat, m: nat): (r: nat)
    requires k <= |bs|
    ensures k <= r <= |bs|
    ensures r < |bs| ==> Fits(bs[r], n, m)
    decreases |bs| - k
  {
    if k == |bs| || Fits(bs[k], n, m) then k else Find(bs, k + 1, n, m)
  }

  predicate Cuts(b: Block, n: nat) { b.size >= n + HEADER + MIN_DATA }

  function TakeBlocks(bs: seq<Block>, i: nat, n: nat): seq<Block>
    requires i < |bs| && bs[i].size >= n
  {
    if Cuts(bs[i], n) then Split(bs, i, n, HEADER) else Mark(bs, i, true)
  }

  /** Index of the block rt_malloc picks. */
  function Pick(s: State, n: nat, m: nat): nat {
    Find(s.blocks, IndexFrom(s.blocks, s.lfree, 0), n, m)
  }

  /** rt_malloc handing out block i. */
  function TakeAt(s: State, i: nat, n: nat, m: nat): State
    requires i < |s.blocks| && s.blocks[i].size >= n
  {
    var b := s.blocks[i];
    var bs := TakeBlocks(s.blocks, i, n);
    var used := s.usedMem + HEADER + (if Cuts(b, n) then n else b.size);
    State(bs, if b.off == s.lfree then OffAt(bs, FirstFree(bs, i), m + HEADER) else s.lfree, used, Max(s.maxMem, used))
  }

  /** rt_malloc from the search on, for n words: the new state and the data offset. */
  function Take(s: State, n: nat, m: nat): (State, Option<nat>) {
    var i := Pick(s, n, m);
    if i < |s.blocks| then (TakeAt(s, i, n, m), Some(s.blocks[i].off + HEADER)) else (s, None)
  }

  /** rt_malloc for a request in bytes. */
  function MallocSpec(s: State, bytes: nat, m: nat): (State, Option<nat>) {
    var n := AlignWords(bytes);
    if bytes == 0 || n > m then (s, None) else Take(s, Max(n, MIN_DATA), m)
  }

  /** lfree after plug_holes on block i. */
  function PlugHint(bs: seq<Block>, lfree: nat, i: nat): nat
    requires i < |bs|
  {
    var l := if i + 1 < |bs| && !bs[i + 1].used && lfree == bs[i + 1].off then bs[i].off else lfree;
    if i > 0 && !bs[i - 1].used && l == bs[i].off then bs[i - 1].off else l
  }

  /** rt_free of block i. */
  function Release(s: State, i: nat): State
    requires i < |s.blocks| && s.usedMem >= HEADER + s.blocks[i].size
  {
    var bs := Mark(s.blocks, i, false);
    State(Coalesce(bs, i, HEADER), PlugHint(bs, Min(bs[i].off, s.lfree), i), s.usedMem - HEADER - bs[i].size, s.maxMem)
  }

  /** Index of the block whose data starts at p. */
  function BlockOf(s: State, p: nat): nat {
    IndexFrom(s.blocks, if p < HEADER then 0 else p - HEADER, 0)
  }

  /** p is what rt_malloc returned for a block still in use. */
  predicate Live(s: State, p: nat) {
    var i := BlockOf(s, p);
    i < |s.blocks| && s.blocks[i].off + HEADER == p && s.blocks[i].used
  }

  function FreeSpec(s: State, p: Option<nat>): State {
    if p.Some? && Live(s, p.value) && s.usedMem >= HEADER + s.blocks[BlockOf(s, p.value)].size
    then Release(s, BlockOf(s, p.value)) else s
  }

  /** The in-place shrink of rt_realloc. */
  function Shrink(s: State, i: nat, n: nat): State
    requires i < |s.blocks| && n + HEADER <= s.blocks[i].size && s.usedMem >= s.blocks[i].size - n
  {
    var bs := Split(s.blocks, i, n, HEADER);
    State(Coalesce(bs, i + 1, HEADER), PlugHint(bs, s.lfree, i + 1), s.usedMem - (s.blocks[i].size - n), s.maxMem)
  }

  predicate Shrinks(size: nat, n: nat) { n + HEADER + MIN_DATA < size }

  /** The part of rt_realloc that moves the data to a new block; p stays as it is
      when there is no room. */
  function MoveSpec(s: State, p: nat, n: nat, m: nat): (State, Option<nat>) {
    var t := Take(s, Max(n, MIN_DATA), m);
    if t.1.None? then t else (FreeSpec(t.0, Some(p)), t.1)
  }

  function ReallocSpec(s: State, p: Option<nat>, bytes: nat, m: nat): (State, Option<nat>) {
    var n := AlignWords(bytes);
    if n > m then (s, None)
    else if n == 0 then (FreeSpec(s, p), None)
    else if p.None? then Take(s, Max(n, MIN_DATA), m)
    else if p.value >= m + HEADER || !Live(s, p.value) then (s, p)
    else
      var i := BlockOf(s, p.value);
      var size := s.blocks[i].size;
      if size == n then (s, p)
      else if Shrinks(size, n) && s.usedMem >= size - n then (Shrink(s, i, n), p)
      else MoveSpec(s, p.value, n, m)
  }

  ghost predicate FreeAt(bs: seq<Block>, off: nat) {
    exists i {:trigger bs[i]} :: 0 <= i < |bs| && bs[i].off == off && !bs[i].used
  }

  /** lfree is a free block or heap_end. */
  ghost predicate HintOk(s: State, m: nat) {
    s.lfree == m + HEADER || FreeAt(s.blocks, s.lfree)
  }

  /** lfree is the lowest free block. */
  ghost predicate HintLowest(s: State, m: nat) {
    s.lfree == OffAt(s.blocks, FirstFree(s.blocks, 0), m + HEADER)
  }

  ghost predicate WellFormed(s: State, m: nat) {
    && m >= MIN_DATA
    && Tiled(s.blocks, HEADER, 0, m + HEADER)
    && Coalesced(s.blocks)
    && HintOk(s, m)
    && s.usedMem == UsedSpan(s.blocks, HEADER)
    && s.usedMem <= s.maxMem
  }

  /** Usable words between two addresses, less than none if the headers do not fit. */
  function UsableWords(begin: nat, end: nat): int { end / 4 - AlignWords(begin) - 2 * HEADER }

  function Initial(m: nat): State {
    State([Block(0, m, false)], 0, 0, 0)
  }

  // ---------------------------------------------------------------- searching

  lemma {:induction false} BeforeFind(bs: seq<Block>, k: nat, n: nat, m: nat, j: nat)
    requires k <= |bs| && k <= j < Find(bs, k, n, m)
    ensures !Fits(bs[j], n, m)
    decreases j - k
  {
    if k < j { BeforeFind(bs, k + 1, n, m, j); }
  }

  lemma IndexUnique(bs: seq<Block>, off: nat, k: nat, m: nat)
    requires Tiled(bs, HEADER, 0, m + HEADER) && k <= |bs| && off == OffAt(bs, k, m + HEADER)
    ensures IndexFrom(bs, off, 0) == k
  {
    IndexIs(bs, HEADER, 0, m + HEADER, off, k);
  }

  /** lfree names a block, or heap_end. */
  lemma HintIndex(s: State, m: nat)
    requires Tiled(s.blocks, HEADER, 0, m + HEADER) && HintOk(s, m)
    ensures s.lfree == OffAt(s.blocks, IndexFrom(s.blocks, s.lfree, 0), m + HEADER)
  {
    if s.lfree == m + HEADER {
      IndexUnique(s.blocks, s.lfree, |s.blocks|, m);
    } else {
      var i :| 0 <= i < |s.blocks| && s.blocks[i].off == s.lfree && !s.blocks[i].used;
      IndexUnique(s.blocks, s.lfree, i, m);
    }
  }

  lemma LiveIndex(s: State, i: nat, m: nat)
    requires Tiled(s.blocks, HEADER, 0, m + HEADER) && i < |s.blocks|
    ensures BlockOf(s, s.blocks[i].off + HEADER) == i
    ensures Live(s, s.blocks[i].off + HEADER) == s.blocks[i].used
  {
    IndexUnique(s.blocks, s.blocks[i].off, i, m);
  }

  /** The loop guard only ever hides exact fits that end at heap_end. */
  lemma PastTheGuard(bs: seq<Block>, k: nat, n: nat, m: nat)
    requires Tiled(bs, HEADER, 0, m + HEADER) && k <= |bs| && OffAt(bs, k, m + HEADER) + n >= m
    ensures Find(bs, k, n, m) == |bs|
  {
    var r := Find(bs, k, n, m);
    if k < r < |bs| { Ordered(bs, HEADER, 0, m + HEADER, k, r); }
  }

  /** A request that is already a multiple of four bytes. */
  lemma MallocWords(s: State, n: nat, m: nat)
    requires 0 < n <= m && 4 * m < WORD_RANGE
    ensures AlignWords(4 * n) == n && MallocSpec(s, 4 * n, m) == Take(s, Max(n, MIN_DATA), m)
  {
    assert 4 * n + 3 < WORD_RANGE && (4 * n + 3) / 4 == n;
  }

  // ---------------------------------------------------------------- invariants

  lemma UsedSpanCovers(bs: seq<Block>, i: nat)
    requires i < |bs| && bs[i].used
    ensures UsedSpan(bs, HEADER) >= HEADER + bs[i].size
  {
    SumsAt(bs, i, HEADER);
  }

  /** Old index l once block j was handed out. */
  function Shift(l: nat, j: nat, cut: bool): nat { if l < j || !cut then l else l + 1 }

  lemma TakeBlocksAt(bs: seq<Block>, j: nat, n: nat, l: nat)
    requires j < |bs| && bs[j].size >= n && l < |bs| && l != j
    ensures var r := TakeBlocks(bs, j, n); var k := Shift(l, j, Cuts(bs[j], n)); k < |r| && k != j && r[k] == bs[l]
  {
  }

  lemma TakeTiled(bs: seq<Block>, i: nat, n: nat, m: nat)
    requires Tiled(bs, HEADER, 0, m + HEADER) && Coalesced(bs) && i < |bs| && !bs[i].used && bs[i].size >= n
    ensures Tiled(TakeBlocks(bs, i, n), HEADER, 0, m + HEADER) && Coalesced(TakeBlocks(bs, i, n))
    ensures UsedSpan(TakeBlocks(bs, i, n), HEADER) ==
        UsedSpan(bs, HEADER) + HEADER + (if Cuts(bs[i], n) then n else bs[i].size)
  {
    if Cuts(bs[i], n) {
      SplitKeeps(bs, i, n, HEADER, 0, m + HEADER);
      SplitSums(bs, i, n, HEADER);
      SplitCoalesced(bs, i, n, HEADER);
    } else {
      MarkKeeps(bs, i, true, HEADER, 0, m + HEADER);
      MarkSums(bs, i, true, HEADER);
      MarkCoalesced(bs, i);
    }
  }

  lemma TakeHint(s: State, i: nat, n: nat, m: nat)
    requires Tiled(s.blocks, HEADER, 0, m + HEADER) && HintOk(s, m) && i < |s.blocks| && s.blocks[i].size >= n
    ensures HintOk(TakeAt(s, i, n, m), m)
  {
    var bs := s.blocks;
    if bs[i].off != s.lfree && s.lfree != m + HEADER {
      var l :| 0 <= l < |bs| && bs[l].off == s.lfree && !bs[l].used;
      TakeBlocksAt(bs, i, n, l);
    }
  }

  lemma TakeKeeps(s: State, n: nat, m: nat)
    requires WellFormed(s, m)
    ensures WellFormed(Take(s, n, m).0, m)
  {
    var i := Pick(s, n, m);
    if i < |s.blocks| {
      TakeTiled(s.blocks, i, n, m);
      TakeHint(s, i, n, m);
    }
  }

  lemma FreedTiled(bs: seq<Block>, i: nat, m: nat)
    requires Tiled(bs, HEADER, 0, m + HEADER) && Coalesced(bs) && i < |bs| && bs[i].used
    ensures var b1 := Mark(bs, i, false);
      && Tiled(b1, HEADER, 0, m + HEADER)
      && Tiled(Coalesce(b1, i, HEADER), HEADER, 0, m + HEADER) && Coalesced(Coalesce(b1, i, HEADER))
      && UsedSpan(Coalesce(b1, i, HEADER), HEADER) + HEADER + bs[i].size == UsedSpan(bs, HEADER)
  {
    var b1 := Mark(bs, i, false);
    MarkKeeps(bs, i, false, HEADER, 0, m + HEADER);
    forall k | 0 < k < |b1| && k != i && k != i + 1
      ensures NotBothFree(b1, k)
    {
      assert NotBothFree(bs, k);
    }
    CoalesceKeeps(b1, i, HEADER, 0, m + HEADER);
    MarkSums(bs, i, false, HEADER);
    CoalesceSums(b1, i, HEADER);
  }

  lemma SplitPairs(b0: seq<Block>, i: nat, n: nat)
    requires Coalesced(b0) && i < |b0| && b0[i].used && n + HEADER <= b0[i].size
    ensures var bs := Split(b0, i, n, HEADER);
            forall k {:trigger NotBothFree(bs, k)} :: 0 < k < |bs| && k != i + 1 && k != i + 2 ==> NotBothFree(bs, k)
  {
    var bs := Split(b0, i, n, HEADER);
    forall k | 0 < k < |bs| && k != i + 1 && k != i + 2
      ensures NotBothFree(bs, k)
    {
      if k <= i { assert NotBothFree(b0, k); } else { assert NotBothFree(b0, k - 1); }
    }
  }

  lemma ShrunkTiled(b0: seq<Block>, i: nat, n: nat, m: nat)
    requires Tiled(b0, HEADER, 0, m + HEADER) && Coalesced(b0) && i < |b0| && b0[i].used && n + HEADER <= b0[i].size
    ensures var bs := Split(b0, i, n, HEADER);
      && Tiled(bs, HEADER, 0, m + HEADER)
      && Tiled(Coalesce(bs, i + 1, HEADER), HEADER, 0, m + HEADER) && Coalesced(Coalesce(bs, i + 1, HEADER))
      && UsedSpan(Coalesce(bs, i + 1, HEADER), HEADER) + b0[i].size - n == UsedSpan(b0, HEADER)
  {
    var bs := Split(b0, i, n, HEADER);
    SplitKeeps(b0, i, n, HEADER, 0, m + HEADER);
    SplitPairs(b0, i, n);
    CoalesceKeeps(bs, i + 1, HEADER, 0, m + HEADER);
    SplitSums(b0, i, n, HEADER);
    CoalesceSums(bs, i + 1, HEADER);
  }

  /** plug_holes never leaves lfree on a header it has merged away. */
  lemma HintThroughCoalesce(bs: seq<Block>, lfree: nat, i: nat, m: nat)
    requires Tiled(bs, HEADER, 0, m + HEADER) && i < |bs| && !bs[i].used
    requires lfree == m + HEADER || FreeAt(bs, lfree)
    ensures PlugHint(bs, lfree, i) == m + HEADER || FreeAt(Coalesce(bs, i, HEADER), PlugHint(bs, lfree, i))
  {
    var b1 := PlugNext(bs, i, HEADER);
    var l0 := if b1 != bs && lfree == bs[i + 1].off then bs[i].off else lfree;
    if i + 1 < |bs| { EndBound(bs, HEADER, 0, m + HEADER, i + 1); }
    assert l0 == m + HEADER || FreeAt(b1, l0) by {
      if lfree != m + HEADER {
        var l :| 0 <= l < |bs| && bs[l].off == lfree && !bs[l].used;
        IndexUnique(bs, lfree, l, m);
        if i + 1 < |bs| { IndexUnique(bs, bs[i + 1].off, i + 1, m); }
        var k := if b1 != bs && l > i then l - 1 else l;
        assert b1[k].off == l0 && !b1[k].used;
      }
    }
    if i > 0 && !b1[i - 1].used {
      var c := Absorb(b1, i - 1, HEADER);
      if l0 == bs[i].off {
        assert c[i - 1].off == bs[i - 1].off;
      } else if l0 != m + HEADER {
        var l :| 0 <= l < |b1| && b1[l].off == l0 && !b1[l].used;
        assert c[if l < i then l else l - 1].off == l0;
      }
    }
  }

  /** The block marked free, or lfree in front of it, is free. */
  lemma FreedHint(s: State, i: nat, m: nat)
    requires Tiled(s.blocks, HEADER, 0, m + HEADER) && HintOk(s, m) && i < |s.blocks|
    ensures FreeAt(Mark(s.blocks, i, false), Min(s.blocks[i].off, s.lfree))
  {
    var bs := Mark(s.blocks, i, false);
    EndBound(s.blocks, HEADER, 0, m + HEADER, i);
    if s.lfree < bs[i].off {
      var l :| 0 <= l < |s.blocks| && s.blocks[l].off == s.lfree && !s.blocks[l].used;
      assert bs[l] == s.blocks[l];
    }
  }

  lemma ReleaseKeeps(s: State, i: nat, m: nat)
    requires WellFormed(s, m) && i < |s.blocks| && s.blocks[i].used
    ensures s.usedMem >= HEADER + s.blocks[i].size && WellFormed(Release(s, i), m)
  {
    hide Tiled, Coalesced, Coalesce, UsedSpan, FreeAt, PlugHint;
    var bs := Mark(s.blocks, i, false);
    UsedSpanCovers(s.blocks, i);
    FreedTiled(s.blocks, i, m);
    FreedHint(s, i, m);
    HintThroughCoalesce(bs, Min(bs[i].off, s.lfree), i, m);
  }

  lemma FreeIs(s: State, i: nat, m: nat)
    requires WellFormed(s, m) && i < |s.blocks| && s.blocks[i].used
    ensures s.usedMem >= HEADER + s.blocks[i].size
    ensures Live(s, s.blocks[i].off + HEADER) && FreeSpec(s, Some(s.blocks[i].off + HEADER)) == Release(s, i)
  {
    LiveIndex(s, i, m);
    UsedSpanCovers(s.blocks, i);
  }

  /** Cutting a used block leaves lfree what it was. */
  lemma ShrunkHint(s: State, i: nat, n: nat, m: nat)
    requires HintOk(s, m) && i < |s.blocks| && s.blocks[i].used && n + HEADER <= s.blocks[i].size
    ensures s.lfree == m + HEADER || FreeAt(Split(s.blocks, i, n, HEADER), s.lfree)
  {
    if s.lfree != m + HEADER {
      var l :| 0 <= l < |s.blocks| && s.blocks[l].off == s.lfree && !s.blocks[l].used;
      assert Split(s.blocks, i, n, HEADER)[if l < i then l else l + 1] == s.blocks[l];
    }
  }

  lemma ShrinkKeeps(s: State, i: nat, n: nat, m: nat)
    requires WellFormed(s, m) && i < |s.blocks| && s.blocks[i].used && n + HEADER <= s.blocks[i].size
    ensures s.usedMem >= s.blocks[i].size - n && WellFormed(Shrink(s, i, n), m)
  {
    hide Tiled, Coalesced, Coalesce, UsedSpan, FreeAt, PlugHint;
    var bs := Split(s.blocks, i, n, HEADER);
    UsedSpanCovers(s.blocks, i);
    ShrunkTiled(s.blocks, i, n, m);
    ShrunkHint(s, i, n, m);
    HintThroughCoalesce(bs, s.lfree, i + 1, m);
  }

  /** Where the new block (j) and an old used block (k) are after a successful
      allocation. */
  lemma TakeLayout(s: State, i: nat, n: nat, m: nat) returns (j: nat, k: nat)
    requires i < |s.blocks| && s.blocks[i].used && Take(s, n, m).1.Some?
    ensures j < |s.blocks| && !s.blocks[j].used && n <= s.blocks[j].size
        && s.blocks[j].off + HEADER == Take(s, n, m).1.value
    ensures var bs := Take(s, n, m).0.blocks;
      && j < |bs| && k < |bs| && j != k
      && bs[j].off + HEADER == Take(s, n, m).1.value && bs[j].used && bs[j].size >= n
      && bs[k] == s.blocks[i]
  {
    j := Pick(s, n, m);
    k := Shift(i, j, Cuts(s.blocks[j], n));
    TakeBlocksAt(s.blocks, j, n, i);
  }
}
