/** rt-thread/src/memheap.c: which allocations are live, and how large, after each call. */
module MemHeapLive {
  import opened Common
  import opened Lists
  import opened Tiling
  import opened MemHeapSpec
  import opened MemHeapTheorems

  /** The data words of a live allocation. */
  function SizeOf(s: State, q: nat): nat
    requires Live(s, q)
  {
    s.blocks[At(s.blocks, q - HEADER)].size
  }

  /** q is a live allocation of k words. */
  predicate Owns(s: State, q: nat, k: nat) { Live(s, q) && SizeOf(s, q) == k }

  /** The blocks lie in the order of their addresses, whether or not they overlap. */
  ghost predicate Rising(bs: seq<Block>) {
    forall i, j {:trigger bs[i], bs[j]} :: 0 <= i < j < |bs| ==> bs[i].off < bs[j].off
  }

  lemma RisingAt(bs: seq<Block>, i: nat)
    requires Rising(bs) && i < |bs|
    ensures At(bs, bs[i].off) == i
  {
    var r := At(bs, bs[i].off);
    if i < r { BeforeIndex(bs, bs[i].off, 0, i); }
  }

  lemma TiledRises(bs: seq<Block>, p: nat)
    requires Tiled(bs, HEADER, START, p)
    ensures Rising(bs)
  {
    forall i, j | 0 <= i < j < |bs|
      ensures bs[i].off < bs[j].off
    {
      Ordered(bs, HEADER, START, p, i, j);
    }
  }

  /** To own q is to say that the block in front of q is one of the used blocks. */
  lemma RisingOwns(s: State, q: nat, k: nat)
    requires Rising(s.blocks)
    ensures Owns(s, q, k) <==> q >= HEADER && Block(q - HEADER, k, true) in s.blocks
  {
    if q >= HEADER && Block(q - HEADER, k, true) in s.blocks {
      var i :| 0 <= i < |s.blocks| && s.blocks[i] == Block(q - HEADER, k, true);
      RisingAt(s.blocks, i);
    }
    if Owns(s, q, k) { assert s.blocks[At(s.blocks, q - HEADER)] == Block(q - HEADER, k, true); }
  }

  lemma OwnsIff(s: State, q: nat, k: nat, p: nat)
    requires WellFormed(s, p)
    ensures Owns(s, q, k) <==> q >= HEADER && Block(q - HEADER, k, true) in s.blocks
  {
    TiledRises(s.blocks, p);
    RisingOwns(s, q, k);
  }

  // ---------------------------------------------------------------- one call

  /** The block handed out, before and after. */
  lemma TakenBlock(s: State, n: nat, p: nat)
    requires WellFormed(s, p) && Take(s, n, p).1.Some?
    ensures var (t, r) := Take(s, n, p); var k := FindFree(s.blocks, s.free, 0, n);
      && k < |s.free|
      && var i := At(s.blocks, s.free[k]);
      && i < |t.blocks| && i < |s.blocks| && !s.blocks[i].used && s.blocks[i].size >= n
      && t.blocks == TakeBlocks(s.blocks, i, n) && r.value == s.blocks[i].off + HEADER
      && Live(t, r.value) && SizeOf(t, r.value) == (if Cuts(s.blocks[i].size, n) then n else s.blocks[i].size)
          && !Live(s, r.value)
  {
    var k := FindFree(s.blocks, s.free, 0, n);
    FoundIsFree(s, k, p);
    TakeKeeps(s, n, p);
    var t, i := Take(s, n, p).0, At(s.blocks, s.free[k]);
    assert t.blocks[i].off == s.blocks[i].off && t.blocks[i].used;
    AtIs(t.blocks, i, p);
    AtIs(s.blocks, i, p);
  }

  lemma TakenUsed(bs: seq<Block>, i: nat, n: nat, b: Block)
    requires i < |bs| && !bs[i].used && bs[i].size >= n && b.used
    ensures b in TakeBlocks(bs, i, n)
        <==> b in bs || b == Block(bs[i].off, if Cuts(bs[i].size, n) then n else bs[i].size, true)
  {
    AllBut(bs, i, b);
    if Cuts(bs[i].size, n) { SplitUsed(bs, i, n, HEADER, b); } else { MarkUsed(bs, i, true, b); }
  }

  lemma TakeOwns(s: State, n: nat, p: nat, q: nat, k: nat)
    requires WellFormed(s, p) && Take(s, n, p).1.Some?
    ensures var (t, r) := Take(s, n, p);
      && Live(t, r.value) && SizeOf(t, r.value) >= n && !Live(s, r.value)
      && (Owns(t, q, k) <==> Owns(s, q, k) || (q == r.value && k == SizeOf(t, q)))
  {
    hide WellFormed, Live, SizeOf, Take, TakeBlocks;
    var (t, r) := Take(s, n, p);
    TakeKeeps(s, n, p);
    TakenBlock(s, n, p);
    OwnsIff(s, q, k, p);
    OwnsIff(t, q, k, p);
    var i := At(s.blocks, s.free[FindFree(s.blocks, s.free, 0, n)]);
    TakenUsed(s.blocks, i, n, Block(if q >= HEADER then q - HEADER else 0, k, true));
  }

  lemma ReleasedUsed(bs: seq<Block>, i: nat, p: nat, b: Block)
    requires Tiled(bs, HEADER, START, p) && i < |bs| && bs[i].used && b.used
    ensures b in Coalesce(Mark(bs, i, false), i, HEADER) <==> b in bs && b.off != bs[i].off
  {
    CoalesceUsed(Mark(bs, i, false), i, HEADER, b);
    MarkUsed(bs, i, false, b);
    BesideIff(bs, HEADER, START, p, i, b);
  }

  lemma FreeOwns(s: State, q0: nat, p: nat, q: nat, k: nat)
    requires WellFormed(s, p) && Live(s, q0)
    ensures Owns(FreeSpec(s, Some(q0)), q, k) <==> Owns(s, q, k) && q != q0
  {
    hide Coalesce, Listed, Coalesced;
    var i, t := At(s.blocks, q0 - HEADER), FreeSpec(s, Some(q0));
    FreeKeeps(s, Some(q0), p);
    OwnsIff(s, q, k, p);
    OwnsIff(t, q, k, p);
    ReleasedUsed(s.blocks, i, p, Block(if q >= HEADER then q - HEADER else 0, k, true));
  }

  lemma ShrunkUsed(bs: seq<Block>, i: nat, n: nat, p: nat, b: Block)
    requires Tiled(bs, HEADER, START, p) && i < |bs| && n + HEADER <= bs[i].size && b.used
    ensures b in PlugNext(Split(bs, i, n, HEADER), i + 1, HEADER)
        <==> b == Block(bs[i].off, n, true) || (b in bs && b.off != bs[i].off)
  {
    var r := Split(bs, i, n, HEADER);
    assert !r[i + 1].used;
    CoalesceUsed(r, i + 1, HEADER, b);
    SplitUsed(bs, i, n, HEADER, b);
    BesideIff(bs, HEADER, START, p, i, b);
  }

  lemma ShrinkOwns(s: State, i: nat, n: nat, p: nat, q: nat, k: nat)
    requires WellFormed(s, p) && i < |s.blocks| && s.blocks[i].used && Shrinks(s.blocks[i].size, n)
    ensures Owns(Shrink(s, i, n), q, k) <==> if q == s.blocks[i].off + HEADER then k == n else Owns(s, q, k)
  {
    hide Listed, Coalesced, PlugNext;
    ShrinkKeeps(s, i, n, p);
    OwnsIff(s, q, k, p);
    OwnsIff(Shrink(s, i, n), q, k, p);
    ShrunkUsed(s.blocks, i, n, p, Block(if q >= HEADER then q - HEADER else 0, k, true));
  }

  /** Growing in place, even over the end of the pool, changes one used block. */
  lemma GrownUsed(s: State, i: nat, n: nat, p: nat, b: Block)
    requires WellFormed(s, p) && FreeRight(s.blocks, i) && b.used
    ensures b in Grow(s, i, n, p).blocks
        <==> b == Block(s.blocks[i].off, n, true) || (b in s.blocks && b.off != s.blocks[i].off)
  {
    BesideIff(s.blocks, HEADER, START, p, i, b);
    assert s.blocks[i + 1..] == [s.blocks[i + 1]] + s.blocks[i + 2..];
  }

  lemma GrownRises(s: State, i: nat, n: nat, p: nat)
    requires WellFormed(s, p) && i < |s.blocks| && s.blocks[i].used && s.blocks[i].size < n < WORDS
        && Passes(s.blocks, i, n) && 4 * p <= WORD_RANGE
    ensures Rising(Grow(s, i, n, p).blocks)
  {
    hide Listed, Coalesced;
    HeaderLands(s, i, n, p);
    TiledRises(s.blocks, p);
    if i + 2 < |s.blocks| { assert NextOff(s.blocks, i + 1, p) == s.blocks[i + 2].off; }
    var r := Grow(s, i, n, p).blocks;
    forall k | 0 <= k < |r|
      ensures r[k].off == if k == i + 1 then (s.blocks[i].off + HEADER + n) % WORDS else s.blocks[k].off
    {
    }
  }

  lemma GrowOwns(s: State, i: nat, n: nat, p: nat, q: nat, k: nat)
    requires WellFormed(s, p) && i < |s.blocks| && s.blocks[i].used && s.blocks[i].size < n < WORDS
        && Passes(s.blocks, i, n) && 4 * p <= WORD_RANGE
    ensures Owns(Grow(s, i, n, p), q, k) <==> if q == s.blocks[i].off + HEADER then k == n else Owns(s, q, k)
  {
    hide Rising, Grow, WellFormed, Owns, Grows32;
    GrownRises(s, i, n, p);
    OwnsIff(s, q, k, p);
    RisingOwns(Grow(s, i, n, p), q, k);
    GrownUsed(s, i, n, p, Block(if q >= HEADER then q - HEADER else 0, k, true));
  }

  // ---------------------------------------------------------------- what callers may rely on

  /** Every other allocation is as it was. */
  ghost predicate SameBut(s: State, t: State, a: nat) {
    forall q: nat, k: nat {:trigger Owns(t, q, k)} :: q != a ==> (Owns(t, q, k) <==> Owns(s, q, k))
  }

  lemma NothingTaken(s: State, n: nat, p: nat)
    ensures Take(s, n, p).1.None? ==> Take(s, n, p).0 == s
  {
  }

  /** rt_memheap_alloc adds exactly one allocation, which was none before, or changes
      nothing; all others stay live with their sizes. */
  lemma AllocAddsOne(s: State, bytes: nat, p: nat)
    requires WellFormed(s, p)
    ensures var (t, r) := AllocSpec(s, bytes, p);
      if r.None? then t == s else !Live(s, r.value) && Live(t, r.value) && SameBut(s, t, r.value)
  {
    hide WellFormed, Take;
    var n := Words32(bytes);
    var (t, r) := Take(s, n, p);
    NothingTaken(s, n, p);
    if r.Some? {
      TakeOwns(s, n, p, r.value, 0);
      forall q: nat, k: nat | q != r.value
        ensures Owns(t, q, k) <==> Owns(s, q, k)
      {
        TakeOwns(s, n, p, q, k);
      }
    }
  }

  lemma FreePeak(s: State, a: nat)
    ensures FreeSpec(s, Some(a)).maxUsed == s.maxUsed
  {
  }

  /** rt_memheap_free removes exactly the allocation it is given. */
  lemma FreeRemovesOne(s: State, a: nat, p: nat)
    requires WellFormed(s, p) && Live(s, a)
    ensures var t := FreeSpec(s, Some(a)); !Live(t, a) && SameBut(s, t, a) && t.maxUsed == s.maxUsed
  {
    FreePeak(s, a);
    hide WellFormed, FreeSpec;
    var t := FreeSpec(s, Some(a));
    if Live(t, a) { FreeOwns(s, a, p, a, SizeOf(t, a)); }
    forall q: nat, k: nat | q != a
      ensures Owns(t, q, k) <==> Owns(s, q, k)
    {
      FreeOwns(s, a, p, q, k);
    }
  }

  /** In t, r stands for a, with at least n words, and nothing else has changed. */
  ghost predicate Replaced(s: State, t: State, a: nat, r: nat, n: nat) {
    && Live(t, r) && SizeOf(t, r) >= n && (r == a || (!Live(s, r) && !Live(t, a)))
    && forall q: nat, k: nat {:trigger Owns(t, q, k)} :: q != a && q != r ==> (Owns(t, q, k) <==> Owns(s, q, k))
  }

  lemma MoveReplaces(s: State, a: nat, n: nat, p: nat)
    requires WellFormed(s, p) && Live(s, a)
    ensures var (t, r) := MoveSpec(s, a, n, p);
        (r.None? ==> t == s) && (r.Some? ==> r.value != a && Replaced(s, t, a, r.value, n))
  {
    hide WellFormed, Take, FreeSpec;
    var (u, r) := Take(s, n, p);
    NothingTaken(s, n, p);
    if r.Some? {
      TakeKeeps(s, n, p);
      TakeOwns(s, n, p, a, SizeOf(s, a));
      FreeRemovesOne(u, a, p);
      var t := FreeSpec(u, Some(a));
      assert Owns(t, r.value, SizeOf(u, r.value));
      forall q: nat, k: nat | q != a && q != r.value
        ensures Owns(t, q, k) <==> Owns(s, q, k)
      {
        TakeOwns(s, n, p, q, k);
      }
    }
  }

  lemma ShrinkReplaces(s: State, a: nat, n: nat, p: nat)
    requires WellFormed(s, p) && Live(s, a) && Shrinks(SizeOf(s, a), n)
    ensures var t := Shrink(s, At(s.blocks, a - HEADER), n); Owns(t, a, n) && Replaced(s, t, a, a, n)
  {
    hide WellFormed, Shrink;
    var i := At(s.blocks, a - HEADER);
    ShrinkOwns(s, i, n, p, a, n);
    forall q: nat, k: nat | q != a
      ensures Owns(Shrink(s, i, n), q, k) <==> Owns(s, q, k)
    {
      ShrinkOwns(s, i, n, p, q, k);
    }
  }

  lemma GrowReplaces(s: State, a: nat, n: nat, p: nat)
    requires WellFormed(s, p) && Live(s, a) && SizeOf(s, a) < n < WORDS && Passes(s.blocks, At(s.blocks, a - HEADER), n)
        && 4 * p <= WORD_RANGE
    ensures var t := Grow(s, At(s.blocks, a - HEADER), n, p); Owns(t, a, n) && Replaced(s, t, a, a, n)
  {
    hide WellFormed, Grow, Grows32;
    var i := At(s.blocks, a - HEADER);
    GrowOwns(s, i, n, p, a, n);
    forall q: nat, k: nat | q != a
      ensures Owns(Grow(s, i, n, p), q, k) <==> Owns(s, q, k)
    {
      GrowOwns(s, i, n, p, q, k);
    }
  }

  /** rt_memheap_realloc of a live allocation: it is freed for a size of 0, stays if there
      is no room, and is otherwise replaced by one of at least the rounded size; no other
      allocation is touched. */
  lemma ReallocReplacesOne(s: State, a: nat, bytes: nat, p: nat)
    requires WellFormed(s, p) && Live(s, a) && 4 * p <= WORD_RANGE
    ensures var (t, r) := ReallocSpec(s, Some(a), bytes, p);
      match r
      case None => if bytes == 0 then !Live(t, a) && SameBut(s, t, a) else t == s
      case Some(b) => bytes > 0 && Replaced(s, t, a, b, Words32(bytes))
  {
    hide WellFormed, FreeSpec, MoveSpec, Shrink, Grow, Grows32;
    var n, i := Words32(bytes), At(s.blocks, a - HEADER);
    if bytes == 0 {
      FreeRemovesOne(s, a, p);
    } else {
      MoveReplaces(s, a, n, p);
      assert s.blocks[i].off + HEADER == a;
      if n > SizeOf(s, a) {
        if Passes(s.blocks, i, n) {
          GrowReplaces(s, a, n, p);
        } else {
          assert ReallocSpec(s, Some(a), bytes, p) == MoveSpec(s, a, n, p);
        }
      } else if Shrinks(SizeOf(s, a), n) {
        ShrinkReplaces(s, a, n, p);
      }
    }
  }

  /** Some free block has n words, and so has what is left in all. */
  ghost predicate Room(s: State, n: nat) {
    n < s.avail && exists i {:trigger s.blocks[i]} :: 0 <= i < |s.blocks| && !s.blocks[i].used && s.blocks[i].size >= n
  }

  /** The verdict of rt_memheap_realloc on a live block, with n the size rounded up. A size
      of 0 frees it. One that is not larger always succeeds in place: the block is cut to n
      if another block fits into the rest, and stays as it is otherwise. A larger one grows
      in place if the test on the next block passes, and moves otherwise, which succeeds if
      and only if there is room. */
  lemma ReallocVerdict(s: State, a: nat, bytes: nat, p: nat)
    requires WellFormed(s, p) && Live(s, a) && bytes < WORD_RANGE && 4 * p <= WORD_RANGE
    ensures At(s.blocks, a - HEADER) < |s.blocks|
    ensures var (t, r) := ReallocSpec(s, Some(a), bytes, p); var n, size := Words32(bytes), SizeOf(s, a);
      if bytes == 0 then r == None
      else if n <= size then
        r == Some(a) && if n + HEADER + MIN_ALLOC < size then Owns(t, a, n) else t == s
      else if Passes(s.blocks, At(s.blocks, a - HEADER), n) then r == Some(a) && Owns(t, a, n)
      else (r.Some? <==> Room(s, n)) && r != Some(a)
  {
    hide WellFormed, FreeSpec, Take, Shrink, Grow, Grows32, Room;
    var n, i := Words32(bytes), At(s.blocks, a - HEADER);
    AlignCovers(bytes);
    if bytes > 0 {
      if n <= SizeOf(s, a) {
        if Shrinks(SizeOf(s, a), n) { ShrinkReplaces(s, a, n, p); }
      } else if Passes(s.blocks, i, n) {
        GrowReplaces(s, a, n, p);
      } else {
        MoveReplaces(s, a, n, p);
        TakeVerdict(s, n, p);
      }
    }
  }

  /** The search along the free list finds a place if and only if there is room, and takes
      the first entry of the list that is large enough. */
  lemma TakeVerdict(s: State, n: nat, p: nat)
    requires WellFormed(s, p)
    ensures Take(s, n, p).1.Some? <==> Room(s, n)
    ensures Take(s, n, p).1.Some? ==>
      exists k :: 0 <= k < |s.free| && Take(s, n, p).1 == Some(s.free[k] + HEADER)
        && FitsAt(s.blocks, s.free[k], n) && forall j :: 0 <= j < k ==> !FitsAt(s.blocks, s.free[j], n)
  {
    var k := FindFree(s.blocks, s.free, 0, n);
    NoneBefore(s.blocks, s.free, 0, n);
    if k < |s.free| { FoundIsFree(s, k, p); }
    if Room(s, n) {
      var i :| 0 <= i < |s.blocks| && !s.blocks[i].used && s.blocks[i].size >= n;
      assert s.blocks[i].off in s.free;
      AtIs(s.blocks, i, p);
      var j :| 0 <= j < |s.free| && s.free[j] == s.blocks[i].off;
      assert FitsAt(s.blocks, s.free[j], n);
    }
  }

  /** The block handed out is cut to size if another block fits into the rest, and
      max_used_size is the highest that pool_size - available_size has been. */
  lemma TakeSize(s: State, n: nat, p: nat)
    requires WellFormed(s, p) && Take(s, n, p).1.Some?
    ensures var (t, r) := Take(s, n, p);
      && Live(t, r.value)
      && (exists i {:trigger s.blocks[i]} :: 0 <= i < |s.blocks| && r.value == s.blocks[i].off + HEADER
            && SizeOf(t, r.value) == if s.blocks[i].size >= n + HEADER + MIN_ALLOC then n else s.blocks[i].size)
      && t.maxUsed == Max(s.maxUsed, if p >= t.avail then p - t.avail else 0)
  {
    hide Listed, Coalesced, Tiled;
    TakenBlock(s, n, p);
  }

  lemma {:induction false} NoneBefore(bs: seq<Block>, free: seq<nat>, k: nat, n: nat)
    requires k <= |free|
    ensures forall j :: k <= j < FindFree(bs, free, k, n) ==> !FitsAt(bs, free[j], n)
    decreases |free| - k
  {
    if k < |free| && !FitsAt(bs, free[k], n) { NoneBefore(bs, free, k + 1, n); }
  }

  /** rt_memheap_realloc of NULL is rt_memheap_alloc. */
  lemma ReallocNull(s: State, bytes: nat, p: nat)
    ensures ReallocSpec(s, None, bytes, p) == if bytes == 0 then (s, None) else AllocSpec(s, bytes, p)
  {
  }

  /** What a successful rt_memheap_realloc returns is live. It lies in the pool if and only
      if the call does not misfire, and has the bytes asked for if and only if rounding
      them up does not wrap. */
  lemma ReallocCovers(s: State, a: nat, bytes: nat, p: nat)
    requires WellFormed(s, p) && Live(s, a) && bytes < WORD_RANGE && 4 * p <= WORD_RANGE
    requires ReallocSpec(s, Some(a), bytes, p).1.Some?
    ensures var (t, r) := ReallocSpec(s, Some(a), bytes, p);
      && Live(t, r.value)
      && (r.value + SizeOf(t, r.value) <= p <==> !StepMisfires(s, OpRealloc(Some(a), bytes)))
      && (4 * SizeOf(t, r.value) >= bytes <==> bytes <= WORD_RANGE - 4)
  {
    hide WellFormed, ReallocSpec, StepMisfires, Step;
    var op := OpRealloc(Some(a), bytes);
    StepKeepsIff(s, op, p);
    ReallocReplacesOne(s, a, bytes, p);
    AlignCovers(bytes);
    var (t, r) := ReallocSpec(s, Some(a), bytes, p);
    StepIs(s, Some(a), bytes, p);
    if StepMisfires(s, op) { MisfireSize(s, a, bytes, p); } else { SizeBound(t, r.value, p); }
  }

  lemma MisfireSize(s: State, a: nat, bytes: nat, p: nat)
    requires WellFormed(s, p) && 4 * p <= WORD_RANGE && bytes < WORD_RANGE && StepMisfires(s, OpRealloc(Some(a), bytes))
    ensures var (t, r) := ReallocSpec(s, Some(a), bytes, p);
      r == Some(a) && Live(t, a) && SizeOf(t, a) == Words32(bytes) >= WORDS - MIN_ALLOC && bytes <= WORD_RANGE - 4
  {
    hide WellFormed, Grow, Grows32, MoveSpec, Shrink, FreeSpec, Take;
    AlignCovers(bytes);
    GrowReplaces(s, a, Words32(bytes), p);
  }

  lemma StepIs(s: State, q: Option<nat>, bytes: nat, p: nat)
    ensures Step(s, OpRealloc(q, bytes), p) == ReallocSpec(s, q, bytes, p).0
  {
  }

  lemma SizeBound(s: State, q: nat, p: nat)
    requires WellFormed(s, p) && Live(s, q)
    ensures q + SizeOf(s, q) <= p
  {
    EndBound(s.blocks, HEADER, START, p, At(s.blocks, q - HEADER));
  }

  // ---------------------------------------------------------------- requests that wrap

  /** A request for 2^32 - 1 bytes is rounded to 0, raised to the least size, and granted
      with twelve bytes. */
  lemma WrappedAlloc()
    ensures var (t, r) := AllocSpec(Initial(100), WORD_RANGE - 1, 100);
      && t == State([Block(6, 3, true), Block(15, 79, false)], [15], 79, 21)
      && r == Some(12) && Live(t, 12) && 4 * SizeOf(t, 12) == 12
  {
    var s := Initial(100);
    assert FindFree(s.blocks, s.free, 0, 3) == 0 && At(s.blocks, 6) == 0;
    assert s.blocks[..0] == [] && s.blocks[1..] == [];
    assert Without([6], 6) == [];
    assert Split(s.blocks, 0, 3, HEADER) == [Block(6, 3, true), Block(15, 79, false)];
  }

  lemma Forty()
    ensures var (t, r) := AllocSpec(Initial(100), 160, 100);
      t == State([Block(6, 40, true), Block(52, 42, false)], [52], 42, 58) && r == Some(12)
  {
    var s := Initial(100);
    assert FindFree(s.blocks, s.free, 0, 40) == 0 && At(s.blocks, 6) == 0;
    assert s.blocks[..0] == [] && s.blocks[1..] == [];
    assert Without([6], 6) == [];
    assert Split(s.blocks, 0, 40, HEADER) == [Block(6, 40, true), Block(52, 42, false)];
  }

  /** Asked to make a live block of 160 bytes 2^32 - 2 bytes long, rt_memheap_realloc
      cuts it down to twelve, and returns it as a success. */
  lemma WrappedRealloc()
    ensures var s := AllocSpec(Initial(100), 160, 100).0;
      var (t, r) := ReallocSpec(s, Some(12), WORD_RANGE - 2, 100);
      && Live(s, 12) && 4 * SizeOf(s, 12) == 160
      && r == Some(12) && Live(t, 12) && 4 * SizeOf(t, 12) == 12
  {
    hide WellFormed, AllocSpec, Shrink;
    Forty();
    var s := State([Block(6, 40, true), Block(52, 42, false)], [52], 42, 58);
    assert At(s.blocks, 6) == 0;
    assert Words32(WORD_RANGE - 2) == 3;
    InitialKeeps(100);
    TakeKeeps(Initial(100), 40, 100);
    IsTake();
    ShrinkReplaces(s, 12, 3, 100);
  }

  lemma IsTake()
    ensures AllocSpec(Initial(100), 160, 100) == Take(Initial(100), 40, 100)
  {
  }

  /** Asked to make it 2^32 - 8 bytes long, with a free block behind it, it grows the
      block in place over the end of the pool: the test adds twelve, and 4 is less than
      what there is. */
  lemma GrowMisfires()
    ensures var s := AllocSpec(Initial(100), 160, 100).0;
      var (t, r) := ReallocSpec(s, Some(12), WORD_RANGE - 8, 100);
      WellFormed(s, 100) && r == Some(12) && !WellFormed(t, 100)
  {
    Forty();
    var s := State([Block(6, 40, true), Block(52, 42, false)], [52], 42, 58);
    assert At(s.blocks, 6) == 0;
    var n := Words32(WORD_RANGE - 8);
    assert n == WORDS - 2;
    assert Passes(s.blocks, 0, n);
    InitialKeeps(100);
    TakeKeeps(Initial(100), 40, 100);
    GrowBreaks(s, 0, n, 100);
  }

  /** Every misfire: the block it returns runs over the end of the pool. The header of the
      free block lands inside that block's own header and reaches into its payload, and
      the free block covers the rest of the old payload and of the block swallowed. */
  lemma MisfireOverlaps(s: State, i: nat, n: nat, p: nat)
    requires WellFormed(s, p) && i < |s.blocks| && s.blocks[i].used && n < WORDS && Misfires(s, i, n)
        && 4 * p <= WORD_RANGE
    ensures var b, bs := s.blocks[i], Grow(s, i, n, p).blocks;
      && i + 1 < |bs| && bs[i] == Block(b.off, n, true) && b.off + HEADER + n > p
      && var f := bs[i + 1];
         && !f.used && b.off < f.off < b.off + HEADER < f.off + HEADER
         && f.off + HEADER + f.size == NextOff(s.blocks, i + 1, p) > b.off + HEADER + b.size
  {
    hide Listed, Coalesced;
    HeaderLands(s, i, n, p);
    var b, x, e := s.blocks[i], (s.blocks[i].off + HEADER + n) % WORDS, NextOff(s.blocks, i + 1, p);
    Small(e - x - HEADER);
    EndBound(s.blocks, HEADER, START, p, i);
    EndBound(s.blocks, HEADER, START, p, i + 1);
    assert NextOff(s.blocks, i, p) == b.off + HEADER + b.size;
  }

  /** And the next request that free block has room for is answered out of it, with an
      address inside the payload just returned. */
  lemma MisfireHandsOutAgain(s: State, i: nat, n: nat, p: nat, k: nat)
    requires WellFormed(s, p) && i < |s.blocks| && s.blocks[i].used && n < WORDS && Misfires(s, i, n)
        && 4 * p <= WORD_RANGE
    requires i + 1 < |Grow(s, i, n, p).blocks| && k < Grow(s, i, n, p).blocks[i + 1].size
    ensures var q, r := s.blocks[i].off + HEADER, Take(Grow(s, i, n, p), k, p).1;
      r.Some? && q < r.value < q + n
  {
    hide Listed, Coalesced;
    var t := Grow(s, i, n, p);
    var f := t.blocks[i + 1];
    MisfireOverlaps(s, i, n, p);
    HeaderLands(s, i, n, p);
    GrownRises(s, i, n, p);
    RisingAt(t.blocks, i + 1);
    FreeCovers(s.blocks, i + 1);
    EndBound(s.blocks, HEADER, START, p, i);
    EndBound(s.blocks, HEADER, START, p, i + 1);
    MarkKeeps(s.blocks, i, false, HEADER, START, p);
    MarkSums(s.blocks, i, false, HEADER);
    FreeBound(Mark(s.blocks, i, false), p);
    assert NextOff(s.blocks, i, p) == s.blocks[i].off + HEADER + s.blocks[i].size;
    Small(s.avail - (n - s.blocks[i].size));
    Wrapped(s.avail, s.blocks[i].size, n);
    assert FindFree(t.blocks, t.free, 0, k) == 0;
  }

  lemma Wrapped(avail: nat, size: nat, n: nat)
    requires n < WORDS
    ensures avail + size + (WORDS - n) < WORDS ==> (avail - (n - size)) % WORDS == avail + size + (WORDS - n)
  {
  }

  /** An allocation that is live before and after a step keeps its contents, word by word:
      the frame every method of the heap promises, read for one allocation. */
  lemma PayloadKept(w: seq<int>, w1: seq<int>, s: State, t: State, p: nat, q: nat, k: nat)
    requires WellFormed(s, p) && WellFormed(t, p) && Kept(w, w1, s.blocks, t.blocks, HEADER) && |w| >= p
    requires Owns(s, q, k) && Owns(t, q, k)
    ensures q + k <= |w| == |w1| && w1[q..q + k] == w[q..q + k]
  {
    OwnsIff(s, q, k, p);
    OwnsIff(t, q, k, p);
    EndBound(s.blocks, HEADER, START, p, At(s.blocks, q - HEADER));
    KeptBlock(w, w1, s.blocks, t.blocks, HEADER, Block(q - HEADER, k, true));
  }

  // ---------------------------------------------------------------- runs

  /** op is not handed q. */
  predicate Spares(op: Op, q: nat) {
    match op
    case OpAlloc(_) => true
    case OpFree(a) => a != Some(q)
    case OpRealloc(a, _) => a != Some(q)
  }

  predicate RunSpares(ops: seq<Op>, q: nat) { forall i {:trigger ops[i]} :: 0 <= i < |ops| ==> Spares(ops[i], q) }

  lemma StepOwns(s: State, op: Op, p: nat, q: nat, k: nat)
    requires WellFormed(s, p) && 4 * p <= WORD_RANGE && Owns(s, q, k) && Spares(op, q)
    ensures Owns(Step(s, op, p), q, k)
  {
    hide WellFormed, FreeSpec, Take, ResizeSpec;
    match op
    case OpAlloc(bytes) => AllocAddsOne(s, bytes, p);
    case OpFree(a) => if a.Some? && Live(s, a.value) { FreeRemovesOne(s, a.value, p); } else { NotFreed(s, a); }
    case OpRealloc(a, bytes) =>
      if a.Some? && Live(s, a.value) {
        ReallocReplacesOne(s, a.value, bytes, p);
      } else {
        NotFreed(s, a);
        AllocAddsOne(s, bytes, p);
      }
  }

  lemma NotFreed(s: State, a: Option<nat>)
    requires a.None? || !Live(s, a.value)
    ensures FreeSpec(s, a) == s
  {
  }

  /** Over every run without a misfire, an allocation that no call is handed stays live
      with its size. */
  lemma {:induction false} RunsKeepLive(s: State, ops: seq<Op>, p: nat, q: nat, k: nat)
    requires WellFormed(s, p) && 4 * p <= WORD_RANGE && NoMisfire(s, ops, p) && Owns(s, q, k) && RunSpares(ops, q)
    ensures Owns(Run(s, ops, p), q, k)
    decreases |ops|
  {
    hide WellFormed, Step, StepMisfires, Owns;
    if ops != [] {
      StepKeepsIff(s, ops[0], p);
      StepOwns(s, ops[0], p, q, k);
      RunsKeepLive(Step(s, ops[0], p), ops[1..], p, q, k);
    }
  }
}
