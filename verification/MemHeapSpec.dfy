/** rt-thread/src/memheap.c, specification: what rt_memheap_alloc, rt_memheap_free and
    rt_memheap_realloc do to the address-ordered list of blocks, to the free list and
    to the two counters. Offsets and sizes are in 32-bit words; p, the pool size,
    counts the words of the pool. */
module MemHeapSpec {
  import opened Common
  import opened Lists
  import opened Tiling

  const HEADER: nat := 6               // RT_MEMHEAP_SIZE
  const MIN_ALLOC: nat := 3            // RT_MEMHEAP_MINIALLOC
  const WORDS: nat := 0x4000_0000      // words of a 32-bit address space
  const START: nat := HEADER           // the free-list header lies in front of the pool

  /** blocks are those in front of the tail block, whose header is at offset p. */
  datatype State = State(blocks: seq<Block>, free: seq<nat>, avail: nat, maxUsed: nat)

  function At(bs: seq<Block>, off: nat): nat { IndexFrom(bs, off, 0) }

  predicate FitsAt(bs: seq<Block>, off: nat, n: nat) {
    At(bs, off) < |bs| && bs[At(bs, off)].size >= n
  }

  /** First entry of the free list, from k on, that is large enough. */
  function FindFree(bs: seq<Block>, free: seq<nat>, k: nat, n: nat): (r: nat)
    requires k <= |free|
    ensures k <= r <= |free|
    ensures r < |free| ==> FitsAt(bs, free[r], n)
    decreases |free| - k
  {
    if k == |free| || FitsAt(bs, free[k], n) then k else FindFree(bs, free, k + 1, n)
  }

  predicate Cuts(size: nat, n: nat) { size >= n + HEADER + MIN_ALLOC }

  function TakeBlocks(bs: seq<Block>, i: nat, n: nat): seq<Block>
    requires i < |bs| && bs[i].size >= n
  {
    if Cuts(bs[i].size, n) then Split(bs, i, n, HEADER) else Mark(bs, i, true)
  }

  /** available_size drops by d: max_used_size is brought up to date. */
  function Charge(s: State, d: nat, p: nat): State
    requires d <= s.avail
  {
    s.(avail := s.avail - d, maxUsed := Max(s.maxUsed, if p + d >= s.avail then p + d - s.avail else 0))
  }

  /** rt_memheap_alloc handing out block i. */
  function TakeAt(s: State, i: nat, n: nat, p: nat): State
    requires i < |s.blocks| && n <= s.blocks[i].size <= s.avail
  {
    var b := s.blocks[i];
    var rest := Without(s.free, b.off);
    if Cuts(b.size, n)
    then Charge(s, n + HEADER, p).(blocks := TakeBlocks(s.blocks, i, n), free := [b.off + HEADER + n] + rest)
    else Charge(s, b.size, p).(blocks := TakeBlocks(s.blocks, i, n), free := rest)
  }

  /** rt_memheap_alloc from the comparison on, for n words. */
  function Take(s: State, n: nat, p: nat): (State, Option<nat>) {
    var k := FindFree(s.blocks, s.free, 0, n);
    if n >= s.avail || k == |s.free| then (s, None)
    else
      var i := At(s.blocks, s.free[k]);
      if s.blocks[i].size <= s.avail then (TakeAt(s, i, n, p), Some(s.blocks[i].off + HEADER)) else (s, None)
  }

  /** The size in words a request in bytes is rounded up to. */
  function Words32(bytes: nat): nat { Max(AlignWords(bytes), MIN_ALLOC) }

  function AllocSpec(s: State, bytes: nat, p: nat): (State, Option<nat>) { Take(s, Words32(bytes), p) }

  /** q is what rt_memheap_alloc returned for a block still in use. */
  predicate Live(s: State, q: nat) {
    q >= HEADER && var i := At(s.blocks, q - HEADER);
        i < |s.blocks| && s.blocks[i].off + HEADER == q && s.blocks[i].used
  }

  predicate FreeLeft(bs: seq<Block>, i: nat) { 0 < i < |bs| && !bs[i - 1].used }

  predicate FreeRight(bs: seq<Block>, i: nat) { i + 1 < |bs| && !bs[i + 1].used }

  /** rt_memheap_free of block i. */
  function Release(s: State, i: nat): State
    requires i < |s.blocks|
  {
    var bs := s.blocks;
    var left, right := FreeLeft(bs, i), FreeRight(bs, i);
    var rest := if right then Without(s.free, bs[i + 1].off) else s.free;
    State(Coalesce(Mark(bs, i, false), i, HEADER), if left then rest else [bs[i].off] + rest,
          s.avail + bs[i].size + (if left then HEADER else 0) + (if right then HEADER else 0), s.maxUsed)
  }

  function FreeSpec(s: State, q: Option<nat>): State {
    if q.Some? && Live(s, q.value) then Release(s, At(s.blocks, q.value - HEADER)) else s
  }

  /** What rt_memheap_realloc tests before growing in place, without wrap-around. */
  predicate Grows(bs: seq<Block>, i: nat, n: nat)
    requires i < |bs|
  {
    FreeRight(bs, i) && bs[i + 1].size + bs[i].size > n + MIN_ALLOC
  }

  /** The test as the code computes it, on 32-bit operands in bytes. */
  predicate Grows32(next: nat, size: nat, n: nat) {
    (4 * next + 4 * size) % WORD_RANGE > (4 * n + 4 * MIN_ALLOC) % WORD_RANGE
  }

  predicate Passes(bs: seq<Block>, i: nat, n: nat)
    requires i < |bs|
  {
    FreeRight(bs, i) && Grows32(bs[i + 1].size, bs[i].size, n)
  }

  /** Block i takes words from the free block behind it, whose header moves; everything
      is computed in 32-bit arithmetic, which counts words modulo WORDS. */
  function Grow(s: State, i: nat, n: nat, p: nat): State
    requires i + 1 < |s.blocks|
  {
    var bs, b := s.blocks, s.blocks[i];
    var x := (b.off + HEADER + n) % WORDS;
    var rest := (NextOff(bs, i + 1, p) - x - HEADER) % WORDS;
    var left := (s.avail - (n - b.size)) % WORDS;
    State(bs[..i] + [Block(b.off, n, true), Block(x, rest, false)] + bs[i + 2..], [x] + Without(s.free, bs[i + 1].off),
          left, Max(s.maxUsed, (p - left) % WORDS))
  }

  /** The same where nothing wraps. */
  function GrowWithin(s: State, i: nat, n: nat, p: nat): State
    requires i < |s.blocks| && Grows(s.blocks, i, n) && s.blocks[i].size < n && n - s.blocks[i].size <= s.avail
  {
    var bs := s.blocks;
    Charge(s, n - bs[i].size, p).(blocks := Split(Absorb(bs, i, HEADER), i, n, HEADER),
                                  free := [bs[i].off + HEADER + n] + Without(s.free, bs[i + 1].off))
  }

  /** Growing block i to n words goes ahead although there is no room for it. */
  predicate Misfires(s: State, i: nat, n: nat) {
    i < |s.blocks| && n > s.blocks[i].size && Passes(s.blocks, i, n) && 4 * n + 4 * MIN_ALLOC >= WORD_RANGE
  }

  predicate Shrinks(size: nat, n: nat) { n + HEADER + MIN_ALLOC < size }

  /** Block i is cut, and the remainder merged with a free block behind it. */
  function Shrink(s: State, i: nat, n: nat): State
    requires i < |s.blocks| && Shrinks(s.blocks[i].size, n)
  {
    var bs := s.blocks;
    var right := FreeRight(bs, i);
    s.(blocks := PlugNext(Split(bs, i, n, HEADER), i + 1, HEADER),
       free := [bs[i].off + HEADER + n] + (if right then Without(s.free, bs[i + 1].off) else s.free),
       avail := s.avail + bs[i].size - n - (if right then 0 else HEADER))
  }

  /** The part of rt_memheap_realloc that moves the data. */
  function MoveSpec(s: State, q: nat, n: nat, p: nat): (State, Option<nat>) {
    var t := Take(s, n, p);
    if t.1.None? then t else (FreeSpec(t.0, Some(q)), t.1)
  }

  function ReallocSpec(s: State, q: Option<nat>, bytes: nat, p: nat): (State, Option<nat>) {
    var n := Words32(bytes);
    if bytes == 0 then (FreeSpec(s, q), None)
    else if q.None? then Take(s, n, p)
    else if !Live(s, q.value) then (s, None)
    else ResizeSpec(s, At(s.blocks, q.value - HEADER), n, p)
  }

  /** rt_memheap_realloc of block i to n words. */
  function ResizeSpec(s: State, i: nat, n: nat, p: nat): (State, Option<nat>)
    requires i < |s.blocks|
  {
    var size, q := s.blocks[i].size, s.blocks[i].off + HEADER;
    if n > size then
      if Passes(s.blocks, i, n) then (Grow(s, i, n, p), Some(q)) else MoveSpec(s, q, n, p)
    else if Shrinks(size, n) then (Shrink(s, i, n), Some(q))
    else (s, Some(q))
  }

  // ---------------------------------------------------------------- the invariant

  /** The free list holds exactly the unused blocks, once each. */
  ghost predicate Listed(bs: seq<Block>, free: seq<nat>) {
    && NoDup(free)
    && (forall i {:trigger bs[i]} :: 0 <= i < |bs| ==> (bs[i].off in free <==> !bs[i].used))
    && (forall x {:trigger x in free} :: x in free ==> At(bs, x) < |bs| && bs[At(bs, x)].off == x)
  }

  ghost predicate WellFormed(s: State, p: nat) {
    && p >= 2 * HEADER
    && Tiled(s.blocks, HEADER, START, p)
    && Coalesced(s.blocks)
    && Listed(s.blocks, s.free)
    && s.avail == FreeData(s.blocks)
    && p <= s.avail + s.maxUsed
  }

  /** rt_memheap_init. */
  function Initial(p: nat): State
    requires p >= 2 * HEADER
  {
    State([Block(START, p - 2 * HEADER, false)], [START], p - 2 * HEADER, 2 * HEADER)
  }

  // ---------------------------------------------------------------- offsets name blocks

  lemma AtIs(bs: seq<Block>, i: nat, p: nat)
    requires Tiled(bs, HEADER, START, p) && i < |bs|
    ensures At(bs, bs[i].off) == i
  {
    IndexIs(bs, HEADER, START, p, bs[i].off, i);
  }

  lemma OffsDiffer(bs: seq<Block>, i: nat, j: nat, p: nat)
    requires Tiled(bs, HEADER, START, p) && i < |bs| && j < |bs| && i != j
    ensures bs[i].off != bs[j].off
  {
    AtIs(bs, i, p);
    AtIs(bs, j, p);
  }

  /** An offset that leads to a free block of an equal list of offsets. */
  lemma ListedBy(bs: seq<Block>, free: seq<nat>, p: nat)
    requires Tiled(bs, HEADER, START, p) && NoDup(free)
    requires forall i {:trigger bs[i]} :: 0 <= i < |bs| ==> (bs[i].off in free <==> !bs[i].used)
    requires forall x {:trigger x in free} :: x in free ==> exists i {:trigger bs[i]} :: 0 <= i < |bs| && bs[i].off == x
    ensures Listed(bs, free)
  {
    forall x | x in free
      ensures At(bs, x) < |bs| && bs[At(bs, x)].off == x
    {
      var i :| 0 <= i < |bs| && bs[i].off == x;
      AtIs(bs, i, p);
    }
  }

  lemma FreeCovers(bs: seq<Block>, i: nat)
    requires i < |bs| && !bs[i].used
    ensures bs[i].size <= FreeData(bs)
  {
    SumsAt(bs, i, HEADER);
  }

  /** Used and free data and all headers never exceed the pool. */
  lemma FreeBound(bs: seq<Block>, p: nat)
    requires Tiled(bs, HEADER, START, p)
    ensures FreeData(bs) + HEADER + START <= p
  {
    FreePrefix(bs, p, |bs|);
    assert bs[..|bs|] == bs;
  }

  lemma {:induction false} FreePrefix(bs: seq<Block>, p: nat, k: nat)
    requires Tiled(bs, HEADER, START, p) && 0 < k <= |bs|
    ensures FreeData(bs[..k]) + HEADER + START <= bs[k - 1].off + HEADER + bs[k - 1].size <= p
  {
    EndBound(bs, HEADER, START, p, k - 1);
    assert bs[..k][..k - 1] == bs[..k - 1];
    if k > 1 {
      FreePrefix(bs, p, k - 1);
      assert NextOff(bs, k - 2, p) == bs[k - 2].off + HEADER + bs[k - 2].size;
    } else {
      assert bs[..0] == [];
    }
  }

  // ---------------------------------------------------------------- allocation

  lemma Pushed(rest: seq<nat>, x: nat)
    requires NoDup(rest) && x !in rest
    ensures NoDup([x] + rest)
    ensures forall y {:trigger y in [x] + rest} :: y in [x] + rest <==> y == x || y in rest
  {
    InsertMembers(rest, x, 0);
    assert Insert(rest, x, 0) == [x] + rest;
  }

  lemma SplitListed(bs: seq<Block>, free: seq<nat>, i: nat, n: nat, p: nat)
    requires Tiled(bs, HEADER, START, p) && Listed(bs, free) && i < |bs| && n + HEADER <= bs[i].size
    ensures Listed(Split(bs, i, n, HEADER), [bs[i].off + HEADER + n] + Without(free, bs[i].off))
  {
    var r, x, rest := Split(bs, i, n, HEADER), bs[i].off + HEADER + n, Without(free, bs[i].off);
    SplitKeeps(bs, i, n, HEADER, START, p);
    WithoutMembers(free, bs[i].off);
    assert r[i + 1].off == x && r[i].off == bs[i].off;
    if x in free {
      var k := At(bs, x);
      if k < i { Ordered(bs, HEADER, START, p, k, i); }
      if i < k { Ordered(bs, HEADER, START, p, i, k); }
    }
    Pushed(rest, x);
    forall k | 0 <= k < |r|
      ensures r[k].off in [x] + rest <==> !r[k].used
    {
      if k < i { OffsDiffer(r, k, i, p); OffsDiffer(r, k, i + 1, p); assert r[k] == bs[k]; }
      if k > i + 1 { OffsDiffer(r, k, i, p); OffsDiffer(r, k, i + 1, p); assert r[k] == bs[k - 1]; }
      if k == i { OffsDiffer(r, i, i + 1, p); }
    }
    forall y | y in [x] + rest
      ensures exists k {:trigger r[k]} :: 0 <= k < |r| && r[k].off == y
    {
      if y == x { assert r[i + 1].off == x; }
      else { var k := At(bs, y); assert r[if k < i then k else k + 1] == bs[k]; }
    }
    ListedBy(r, [x] + rest, p);
  }

  lemma TakenListed(bs: seq<Block>, free: seq<nat>, i: nat, p: nat)
    requires Tiled(bs, HEADER, START, p) && Listed(bs, free) && i < |bs|
    ensures Listed(Mark(bs, i, true), Without(free, bs[i].off))
  {
    var r, rest := Mark(bs, i, true), Without(free, bs[i].off);
    MarkKeeps(bs, i, true, HEADER, START, p);
    WithoutMembers(free, bs[i].off);
    forall k | 0 <= k < |r|
      ensures r[k].off in rest <==> !r[k].used
    {
      assert r[k].off == bs[k].off;
      if k != i { OffsDiffer(bs, k, i, p); }
    }
    forall y | y in rest
      ensures exists k {:trigger r[k]} :: 0 <= k < |r| && r[k].off == y
    {
      assert r[At(bs, y)].off == y;
    }
    ListedBy(r, rest, p);
  }

  lemma TakeAtKeeps(s: State, i: nat, n: nat, p: nat)
    requires WellFormed(s, p) && i < |s.blocks| && !s.blocks[i].used && s.blocks[i].size >= n
    ensures s.blocks[i].size <= s.avail && WellFormed(TakeAt(s, i, n, p), p)
  {
    hide Listed, Tiled, Coalesced;
    FreeCovers(s.blocks, i);
    if Cuts(s.blocks[i].size, n) {
      SplitKeeps(s.blocks, i, n, HEADER, START, p);
      SplitCoalesced(s.blocks, i, n, HEADER);
      SplitSums(s.blocks, i, n, HEADER);
      SplitListed(s.blocks, s.free, i, n, p);
    } else {
      MarkKeeps(s.blocks, i, true, HEADER, START, p);
      MarkCoalesced(s.blocks, i);
      MarkSums(s.blocks, i, true, HEADER);
      TakenListed(s.blocks, s.free, i, p);
    }
  }

  /** The search only ever looks at free blocks. */
  lemma FoundIsFree(s: State, k: nat, p: nat)
    requires WellFormed(s, p) && k < |s.free|
    ensures var i := At(s.blocks, s.free[k]);
        i < |s.blocks| && s.blocks[i].off == s.free[k] && !s.blocks[i].used && s.blocks[i].size <= s.avail
  {
    assert s.free[k] in s.free;
    FreeCovers(s.blocks, At(s.blocks, s.free[k]));
  }

  lemma TakeKeeps(s: State, n: nat, p: nat)
    requires WellFormed(s, p)
    ensures WellFormed(Take(s, n, p).0, p)
  {
    var k := FindFree(s.blocks, s.free, 0, n);
    if n < s.avail && k < |s.free| {
      FoundIsFree(s, k, p);
      TakeAtKeeps(s, At(s.blocks, s.free[k]), n, p);
    }
  }

  // ---------------------------------------------------------------- release

  lemma FreedListed(bs: seq<Block>, free: seq<nat>, i: nat, p: nat)
    requires Tiled(bs, HEADER, START, p) && Listed(bs, free) && i < |bs| && bs[i].used
    ensures Listed(Mark(bs, i, false), [bs[i].off] + free)
  {
    var r := Mark(bs, i, false);
    MarkKeeps(bs, i, false, HEADER, START, p);
    Pushed(free, bs[i].off);
    forall k | 0 <= k < |r|
      ensures r[k].off in [bs[i].off] + free <==> !r[k].used
    {
      assert r[k].off == bs[k].off;
      if k != i { OffsDiffer(bs, k, i, p); }
    }
    forall y | y in [bs[i].off] + free
      ensures exists k {:trigger r[k]} :: 0 <= k < |r| && r[k].off == y
    {
      if y == bs[i].off { assert r[i].off == y; } else { assert r[At(bs, y)].off == y; }
    }
    ListedBy(r, [bs[i].off] + free, p);
  }

  /** Merging takes the right-hand block off the free list. */
  lemma AbsorbListed(bs: seq<Block>, free: seq<nat>, i: nat, p: nat)
    requires Tiled(bs, HEADER, START, p) && Listed(bs, free) && i + 1 < |bs|
    ensures Tiled(Absorb(bs, i, HEADER), HEADER, START, p)
    ensures Listed(Absorb(bs, i, HEADER), Without(free, bs[i + 1].off))
  {
    var r, rest := Absorb(bs, i, HEADER), Without(free, bs[i + 1].off);
    AbsorbKeeps(bs, i, HEADER, START, p);
    WithoutMembers(free, bs[i + 1].off);
    forall k | 0 <= k < |r|
      ensures r[k].off in rest <==> !r[k].used
    {
      var j := if k <= i then k else k + 1;
      assert r[k].off == bs[j].off && r[k].used == bs[j].used;
      OffsDiffer(bs, j, i + 1, p);
    }
    forall y | y in rest
      ensures exists k {:trigger r[k]} :: 0 <= k < |r| && r[k].off == y
    {
      var j := At(bs, y);
      assert r[if j <= i then j else j - 1].off == y;
    }
    ListedBy(r, rest, p);
  }

  lemma ReleasedListed(s: State, i: nat, p: nat)
    requires WellFormed(s, p) && i < |s.blocks| && s.blocks[i].used
    ensures Listed(Release(s, i).blocks, Release(s, i).free)
  {
    hide Tiled, Listed, Coalesced, FreeData;
    var bs, off := s.blocks, s.blocks[i].off;
    var b1, f1 := Mark(bs, i, false), [bs[i].off] + s.free;
    FreedListed(bs, s.free, i, p);
    MarkKeeps(bs, i, false, HEADER, START, p);
    assert f1[1..] == s.free;
    var b2, f2 := b1, f1;
    if FreeRight(bs, i) {
      OffsDiffer(bs, i, i + 1, p);
      AbsorbListed(b1, f1, i, p);
      b2, f2 := Absorb(b1, i, HEADER), Without(f1, bs[i + 1].off);
      assert f2 == [off] + Without(s.free, bs[i + 1].off);
    }
    if FreeLeft(bs, i) {
      AbsorbListed(b2, f2, i - 1, p);
      UsedUnlisted(bs, s.free, i);
      WithoutMembers(s.free, if FreeRight(bs, i) then bs[i + 1].off else 0);
      NoneWithout(f2[1..], off);
      assert f2[0] == off && f2[1..] == (if FreeRight(bs, i) then Without(s.free, bs[i + 1].off) else s.free);
    }
  }

  lemma UsedUnlisted(bs: seq<Block>, free: seq<nat>, i: nat)
    requires Listed(bs, free) && i < |bs| && bs[i].used
    ensures bs[i].off !in free
  {
  }

  lemma ReleaseKeeps(s: State, i: nat, p: nat)
    requires WellFormed(s, p) && i < |s.blocks| && s.blocks[i].used
    ensures WellFormed(Release(s, i), p)
  {
    hide Listed, Tiled, Coalesced, FreeData, Coalesce;
    ReleasedListed(s, i, p);
    ReleasedTiled(s.blocks, i, p);
  }

  lemma ReleasedTiled(bs: seq<Block>, i: nat, p: nat)
    requires Tiled(bs, HEADER, START, p) && Coalesced(bs) && i < |bs| && bs[i].used
    ensures var b1 := Mark(bs, i, false); var c := Coalesce(b1, i, HEADER);
      Tiled(c, HEADER, START, p) && Coalesced(c)
          && FreeData(c) == FreeData(bs) + bs[i].size + (if FreeLeft(bs, i) then HEADER else 0) +
          (if FreeRight(bs, i) then HEADER else 0)
  {
    var b1 := Mark(bs, i, false);
    MarkKeeps(bs, i, false, HEADER, START, p);
    MarkSums(bs, i, false, HEADER);
    forall k | 0 < k < |b1| && k != i && k != i + 1
      ensures NotBothFree(b1, k)
    {
      assert NotBothFree(bs, k);
    }
    CoalesceKeeps(b1, i, HEADER, START, p);
    CoalesceSums(b1, i, HEADER);
  }

  // ---------------------------------------------------------------- realloc in place

  lemma AbsorbUsedSums(bs: seq<Block>, i: nat)
    requires i + 1 < |bs| && bs[i].used && !bs[i + 1].used
    ensures FreeData(Absorb(bs, i, HEADER)) + bs[i + 1].size == FreeData(bs)
  {
    var m := [Block(bs[i].off, bs[i].size + HEADER + bs[i + 1].size, true)];
    SumsSplice(bs[..i], m, bs[i + 2..], HEADER);
    SumsOne(m[0], HEADER);
    SumsAt(bs, i, HEADER);
    SumsAt(bs[i + 1..], 0, HEADER);
    assert bs[i + 1..][..0] == [] && bs[i + 1..][1..] == bs[i + 2..];
  }

  lemma GrownCoalesced(bs: seq<Block>, i: nat, n: nat)
    requires Coalesced(bs) && i < |bs| && bs[i].used && bs[i].size < n && Grows(bs, i, n)
    ensures Coalesced(Split(Absorb(bs, i, HEADER), i, n, HEADER))
  {
    var r := Split(Absorb(bs, i, HEADER), i, n, HEADER);
    forall k | 0 < k < |r|
      ensures NotBothFree(r, k)
    {
      assert NotBothFree(bs, k);
    }
  }

  lemma GrownListed(bs: seq<Block>, free: seq<nat>, i: nat, n: nat, p: nat)
    requires Tiled(bs, HEADER, START, p) && Listed(bs, free) && i < |bs| && bs[i].used && bs[i].size < n
        && Grows(bs, i, n)
    ensures var r := Split(Absorb(bs, i, HEADER), i, n, HEADER);
      Tiled(r, HEADER, START, p) && Listed(r, [bs[i].off + HEADER + n] + Without(free, bs[i + 1].off))
  {
    hide Listed, Tiled;
    var b1, f1 := Absorb(bs, i, HEADER), Without(free, bs[i + 1].off);
    AbsorbListed(bs, free, i, p);
    SplitKeeps(b1, i, n, HEADER, START, p);
    SplitListed(b1, f1, i, n, p);
    UsedUnlisted(b1, f1, i);
    NoneWithout(f1, bs[i].off);
  }

  lemma GrowKeeps(s: State, i: nat, n: nat, p: nat)
    requires WellFormed(s, p) && i < |s.blocks| && s.blocks[i].used && s.blocks[i].size < n && Grows(s.blocks, i, n)
    ensures n - s.blocks[i].size <= s.avail && WellFormed(GrowWithin(s, i, n, p), p)
  {
    hide Listed, Tiled, Coalesced;
    GrownListed(s.blocks, s.free, i, n, p);
    FreeCovers(s.blocks, i + 1);
    GrownCoalesced(s.blocks, i, n);
    AbsorbUsedSums(s.blocks, i);
    SplitSums(Absorb(s.blocks, i, HEADER), i, n, HEADER);
  }

  /** With a sum that does not wrap, the test is the one meant. */
  lemma PassesIs(bs: seq<Block>, i: nat, n: nat, p: nat)
    requires Tiled(bs, HEADER, START, p) && i < |bs| && 4 * p <= WORD_RANGE && 4 * n + 4 * MIN_ALLOC < WORD_RANGE
    ensures Passes(bs, i, n) <==> Grows(bs, i, n)
  {
    if FreeRight(bs, i) {
      Ordered(bs, HEADER, START, p, i, i + 1);
      EndBound(bs, HEADER, START, p, i);
      assert (4 * bs[i + 1].size + 4 * bs[i].size) % WORD_RANGE == 4 * bs[i + 1].size + 4 * bs[i].size;
      assert (4 * n + 4 * MIN_ALLOC) % WORD_RANGE == 4 * n + 4 * MIN_ALLOC;
    }
  }

  lemma Small(x: int)
    ensures 0 <= x < WORDS ==> x % WORDS == x
  {
  }

  /** Without a wrap the 32-bit results are the true ones. */
  lemma GrowExact(s: State, i: nat, n: nat, p: nat)
    requires WellFormed(s, p) && i < |s.blocks| && s.blocks[i].used && s.blocks[i].size < n && Grows(s.blocks, i, n)
        && 4 * p <= WORD_RANGE
    ensures n - s.blocks[i].size <= s.avail && Grow(s, i, n, p) == GrowWithin(s, i, n, p)
  {
    hide Listed, Coalesced;
    var bs, b := s.blocks, s.blocks[i];
    EndBound(bs, HEADER, START, p, i);
    EndBound(bs, HEADER, START, p, i + 1);
    assert NextOff(bs, i, p) == b.off + HEADER + b.size
        && NextOff(bs, i + 1, p) == bs[i + 1].off + HEADER + bs[i + 1].size;
    FreeCovers(bs, i + 1);
    FreeBound(bs, p);
    var x, d := b.off + HEADER + n, n - b.size;
    Small(x);
    Small(NextOff(bs, i + 1, p) - x - HEADER);
    Small(s.avail - d);
    Small(p - (s.avail - d));
    var a := Absorb(bs, i, HEADER);
    assert a[..i] == bs[..i] && a[i + 1..] == bs[i + 2..];
  }

  /** Growing in place leaves a sound heap if and only if the size plus twelve bytes does
      not wrap. */
  lemma GrowKeepsIff(s: State, i: nat, n: nat, p: nat)
    requires WellFormed(s, p) && i < |s.blocks| && s.blocks[i].used && s.blocks[i].size < n < WORDS
        && 4 * p <= WORD_RANGE
    requires Passes(s.blocks, i, n)
    ensures WellFormed(Grow(s, i, n, p), p) <==> 4 * n + 4 * MIN_ALLOC < WORD_RANGE
  {
    if 4 * n + 4 * MIN_ALLOC < WORD_RANGE {
      PassesIs(s.blocks, i, n, p);
      GrowExact(s, i, n, p);
      GrowKeeps(s, i, n, p);
    } else {
      GrowBreaks(s, i, n, p);
    }
  }

  lemma GrowBreaks(s: State, i: nat, n: nat, p: nat)
    requires i + 1 < |s.blocks| && n < WORDS <= n + MIN_ALLOC
    ensures !Tiled(Grow(s, i, n, p).blocks, HEADER, START, p)
  {
    var r := Grow(s, i, n, p).blocks;
    assert r[i] == Block(s.blocks[i].off, n, true) && r[i + 1].off < WORDS;
    EndsAt(r, i, p);
  }

  lemma EndsAt(bs: seq<Block>, i: nat, p: nat)
    requires i < |bs|
    ensures Tiled(bs, HEADER, START, p) ==> NextOff(bs, i, p) == bs[i].off + HEADER + bs[i].size
  {
  }

  /** Where the moved header lands: behind the payload that was there, or, if the call
      misfires, within twelve bytes in front of the payload. */
  lemma HeaderLands(s: State, i: nat, n: nat, p: nat)
    requires WellFormed(s, p) && i < |s.blocks| && s.blocks[i].used && s.blocks[i].size < n < WORDS
        && 4 * p <= WORD_RANGE
    requires Passes(s.blocks, i, n)
    ensures var b, x := s.blocks[i], (s.blocks[i].off + HEADER + n) % WORDS;
      && b.off + MIN_ALLOC <= x && x + HEADER <= NextOff(s.blocks, i + 1, p) <= p
      && if Misfires(s, i, n) then x == b.off + HEADER + n - WORDS && x < b.off + HEADER
          else Grows(s.blocks, i, n) && x == b.off + HEADER + n
  {
    hide Listed, Coalesced;
    var bs, b := s.blocks, s.blocks[i];
    EndBound(bs, HEADER, START, p, i);
    EndBound(bs, HEADER, START, p, i + 1);
    assert NextOff(bs, i, p) == b.off + HEADER + b.size
        && NextOff(bs, i + 1, p) == bs[i + 1].off + HEADER + bs[i + 1].size;
    if Misfires(s, i, n) { Small(b.off + HEADER + n - WORDS); Wraps(b.off + HEADER + n); }
    else { PassesIs(bs, i, n, p); Small(b.off + HEADER + n); }
  }

  lemma Wraps(x: nat)
    ensures WORDS <= x < 2 * WORDS ==> x % WORDS == x - WORDS
  {
  }

  /** The counters after growing, and the block grown. */
  lemma GrowFields(s: State, i: nat, n: nat, p: nat)
    requires i + 1 < |s.blocks|
    ensures var t, left := Grow(s, i, n, p), (s.avail - (n - s.blocks[i].size)) % WORDS;
      && t == State(t.blocks, t.free, left, Max(s.maxUsed, (p - left) % WORDS))
      && i < |t.blocks| && t.blocks[i] == Block(s.blocks[i].off, n, true)
  {
  }

  lemma ShrunkCoalesced(bs: seq<Block>, i: nat, n: nat)
    requires Coalesced(bs) && i < |bs| && bs[i].used && Shrinks(bs[i].size, n)
    ensures Coalesced(PlugNext(Split(bs, i, n, HEADER), i + 1, HEADER))
  {
    var r := PlugNext(Split(bs, i, n, HEADER), i + 1, HEADER);
    forall k | 0 < k < |r|
      ensures NotBothFree(r, k)
    {
      if FreeRight(bs, i) { assert NotBothFree(bs, k); }
      else if k <= i { assert NotBothFree(bs, k); }
      else if k > i + 1 { assert NotBothFree(bs, k - 1); }
    }
  }

  lemma ShrunkListed(bs: seq<Block>, free: seq<nat>, i: nat, n: nat, p: nat)
    requires Tiled(bs, HEADER, START, p) && Listed(bs, free) && i < |bs| && bs[i].used && Shrinks(bs[i].size, n)
    ensures var r := PlugNext(Split(bs, i, n, HEADER), i + 1, HEADER);
      Tiled(r, HEADER, START, p)
          && Listed(r, [bs[i].off + HEADER + n] + (if FreeRight(bs, i) then Without(free, bs[i + 1].off) else free))
  {
    hide Listed, Tiled;
    var b1, x := Split(bs, i, n, HEADER), bs[i].off + HEADER + n;
    SplitKeeps(bs, i, n, HEADER, START, p);
    SplitListed(bs, free, i, n, p);
    UsedUnlisted(bs, free, i);
    NoneWithout(free, bs[i].off);
    if FreeRight(bs, i) {
      AbsorbListed(b1, [x] + free, i + 1, p);
      OffsDiffer(b1, i + 1, i + 2, p);
      assert ([x] + free)[1..] == free && ([x] + free)[0] == x;
    }
  }

  lemma ShrinkKeeps(s: State, i: nat, n: nat, p: nat)
    requires WellFormed(s, p) && i < |s.blocks| && s.blocks[i].used && Shrinks(s.blocks[i].size, n)
    ensures WellFormed(Shrink(s, i, n), p)
  {
    hide Listed, Tiled, Coalesced;
    var b1 := Split(s.blocks, i, n, HEADER);
    ShrunkListed(s.blocks, s.free, i, n, p);
    ShrunkCoalesced(s.blocks, i, n);
    SplitSums(s.blocks, i, n, HEADER);
    if FreeRight(s.blocks, i) { AbsorbSums(b1, i + 1, HEADER); }
  }
}
