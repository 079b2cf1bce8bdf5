/** rt-thread/src/mem.c: which allocations are live, and how large, after each call. */
module SmallHeapLive {
  import opened Common
  import opened Tiling
  import opened SmallHeapSpec
  import opened SmallHeapTheorems

  /** The data words of a live allocation. */
  function SizeOf(s: State, q: nat): nat
    requires Live(s, q)
  {
    s.blocks[BlockOf(s, q)].size
  }

  /** q is a live allocation of n words. */
  predicate Owns(s: State, q: nat, n: nat) { Live(s, q) && SizeOf(s, q) == n }

  /** That is to say, the block in front of q is one of the used blocks. */
  lemma OwnsIff(s: State, q: nat, n: nat, m: nat)
    requires WellFormed(s, m)
    ensures Owns(s, q, n) <==> q >= HEADER && Block(q - HEADER, n, true) in s.blocks
  {
    if q >= HEADER && Block(q - HEADER, n, true) in s.blocks {
      var i :| 0 <= i < |s.blocks| && s.blocks[i] == Block(q - HEADER, n, true);
      LiveIndex(s, i, m);
    }
    if Owns(s, q, n) { assert s.blocks[BlockOf(s, q)] == Block(q - HEADER, n, true); }
  }

  // ---------------------------------------------------------------- one call

  lemma TakeOwns(s: State, n: nat, m: nat, q: nat, k: nat)
    requires WellFormed(s, m) && Take(s, n, m).1.Some?
    ensures var (t, p) := Take(s, n, m);
      && Live(t, p.value) && SizeOf(t, p.value) >= n && !Live(s, p.value)
      && (Owns(t, q, k) <==> Owns(s, q, k) || (q == p.value && k == SizeOf(t, q)))
  {
    hide WellFormed, Live, SizeOf, Split, Mark;
    var (t, p) := Take(s, n, m);
    TakeKeeps(s, n, m);
    TakenBlock(s, n, m);
    OwnsIff(s, q, k, m);
    OwnsIff(t, q, k, m);
    TakenUsed(s, n, m, Block(if q >= HEADER then q - HEADER else 0, k, true));
  }

  /** The block handed out, before and after. */
  lemma TakenBlock(s: State, n: nat, m: nat)
    requires WellFormed(s, m) && Take(s, n, m).1.Some?
    ensures var (t, p) := Take(s, n, m); var i := Pick(s, n, m);
      && i < |t.blocks| && p.value == t.blocks[i].off + HEADER && t.blocks[i].off == s.blocks[i].off
      && t.blocks[i] == Block(s.blocks[i].off, if Cuts(s.blocks[i], n) then n else s.blocks[i].size, true)
      && Live(t, p.value) && SizeOf(t, p.value) == t.blocks[i].size >= n && !Live(s, p.value)
  {
    var t, i := Take(s, n, m).0, Pick(s, n, m);
    TakeKeeps(s, n, m);
    LiveIndex(t, i, m);
    LiveIndex(s, i, m);
  }

  lemma TakenUsed(s: State, n: nat, m: nat, b: Block)
    requires WellFormed(s, m) && Take(s, n, m).1.Some? && b.used
    ensures var t, i := Take(s, n, m).0, Pick(s, n, m);
      var taken := Block(s.blocks[i].off, if Cuts(s.blocks[i], n) then n else s.blocks[i].size, true);
      b in t.blocks <==> b in s.blocks || b == taken
  {
    var i := Pick(s, n, m);
    AllBut(s.blocks, i, b);
    if Cuts(s.blocks[i], n) { SplitUsed(s.blocks, i, n, HEADER, b); } else { MarkUsed(s.blocks, i, true, b); }
  }

  lemma FreeOwns(s: State, p: nat, m: nat, q: nat, k: nat)
    requires WellFormed(s, m) && Live(s, p)
    ensures Owns(FreeSpec(s, Some(p)), q, k) <==> Owns(s, q, k) && q != p
  {
    hide WellFormed, Coalesce;
    var i, t := BlockOf(s, p), FreeSpec(s, Some(p));
    FreeIsRelease(s, p, m);
    FreeKeeps(s, Some(p), m);
    OwnsIff(s, q, k, m);
    OwnsIff(t, q, k, m);
    ReleasedUsed(s, i, m, Block(if q >= HEADER then q - HEADER else 0, k, true));
  }

  lemma FreeIsRelease(s: State, p: nat, m: nat)
    requires WellFormed(s, m) && Live(s, p)
    ensures var i := BlockOf(s, p);
      i < |s.blocks| && s.blocks[i].off + HEADER == p && s.usedMem >= HEADER + s.blocks[i].size
          && FreeSpec(s, Some(p)) == Release(s, i)
  {
    FreeIs(s, BlockOf(s, p), m);
  }

  lemma ReleasedUsed(s: State, i: nat, m: nat, b: Block)
    requires WellFormed(s, m) && i < |s.blocks| && s.blocks[i].used && b.used
    ensures b in Coalesce(Mark(s.blocks, i, false), i, HEADER) <==> b in s.blocks && b.off != s.blocks[i].off
  {
    CoalesceUsed(Mark(s.blocks, i, false), i, HEADER, b);
    MarkUsed(s.blocks, i, false, b);
    BesideIff(s.blocks, HEADER, 0, m + HEADER, i, b);
  }

  lemma ShrinkOwns(s: State, i: nat, n: nat, m: nat, q: nat, k: nat)
    requires WellFormed(s, m) && i < |s.blocks| && s.blocks[i].used && n + HEADER <= s.blocks[i].size
    ensures s.usedMem >= s.blocks[i].size - n
    ensures var p := s.blocks[i].off + HEADER;
      Owns(Shrink(s, i, n), q, k) <==> if q == p then k == n else Owns(s, q, k)
  {
    hide WellFormed, Coalesce;
    ShrinkKeeps(s, i, n, m);
    OwnsIff(s, q, k, m);
    OwnsIff(Shrink(s, i, n), q, k, m);
    ShrunkUsed(s, i, n, m, Block(if q >= HEADER then q - HEADER else 0, k, true));
  }

  lemma ShrunkUsed(s: State, i: nat, n: nat, m: nat, b: Block)
    requires WellFormed(s, m) && i < |s.blocks| && n + HEADER <= s.blocks[i].size && b.used
    ensures b in Coalesce(Split(s.blocks, i, n, HEADER), i + 1, HEADER)
      <==> b == Block(s.blocks[i].off, n, true) || (b in s.blocks && b.off != s.blocks[i].off)
  {
    var r := Split(s.blocks, i, n, HEADER);
    assert !r[i + 1].used;
    CoalesceUsed(r, i + 1, HEADER, b);
    SplitUsed(s.blocks, i, n, HEADER, b);
    BesideIff(s.blocks, HEADER, 0, m + HEADER, i, b);
  }

  // ---------------------------------------------------------------- no block is empty

  ghost predicate Positive(bs: seq<Block>) { forall i {:trigger bs[i]} :: 0 <= i < |bs| ==> bs[i].size > 0 }

  lemma CoalescePositive(bs: seq<Block>, i: nat)
    requires Positive(bs) && i < |bs|
    ensures Positive(Coalesce(bs, i, HEADER))
  {
  }

  lemma TakePositive(s: State, n: nat, m: nat)
    requires Positive(s.blocks) && n > 0
    ensures Positive(Take(s, n, m).0.blocks)
  {
  }

  lemma FreePositive(s: State, p: Option<nat>)
    requires Positive(s.blocks)
    ensures Positive(FreeSpec(s, p).blocks)
  {
    if p.Some? && Live(s, p.value) {
      var i := BlockOf(s, p.value);
      CoalescePositive(Mark(s.blocks, i, false), i);
    }
  }

  lemma StepPositive(s: State, op: Op, m: nat)
    requires Positive(s.blocks)
    ensures Positive(Step(s, op, m).blocks)
  {
    hide Take, FreeSpec, Coalesce;
    match op
    case OpMalloc(bytes) => TakePositive(s, Max(AlignWords(bytes), MIN_DATA), m);
    case OpFree(p) => FreePositive(s, p);
    case OpRealloc(p, bytes) =>
      var n := AlignWords(bytes);
      TakePositive(s, Max(n, MIN_DATA), m);
      FreePositive(s, p);
      FreePositive(Take(s, Max(n, MIN_DATA), m).0, p);
      if p.Some? && Live(s, p.value) {
        var i := BlockOf(s, p.value);
        if n > 0 && Shrinks(s.blocks[i].size, n) { CoalescePositive(Split(s.blocks, i, n, HEADER), i + 1); }
      }
  }

  /** Over every run every block, live or free, has at least one word. */
  lemma {:induction false} RunsStayPositive(s: State, ops: seq<Op>, m: nat)
    requires Positive(s.blocks)
    ensures Positive(Run(s, ops, m).blocks)
    decreases |ops|
  {
    hide Step;
    if ops != [] {
      StepPositive(s, ops[0], m);
      RunsStayPositive(Step(s, ops[0], m), ops[1..], m);
    }
  }

  // ---------------------------------------------------------------- what callers may rely on

  /** Every other allocation is as it was. */
  ghost predicate SameBut(s: State, t: State, p: nat) {
    forall q: nat, k: nat {:trigger Owns(t, q, k)} :: q != p ==> (Owns(t, q, k) <==> Owns(s, q, k))
  }

  /** rt_malloc adds exactly one allocation, which was none before, or changes nothing;
      all others stay live with their sizes. */
  lemma MallocAddsOne(s: State, bytes: nat, m: nat)
    requires WellFormed(s, m)
    ensures var (t, p) := MallocSpec(s, bytes, m);
      if p.None? then t == s else !Live(s, p.value) && Live(t, p.value) && SameBut(s, t, p.value)
  {
    hide WellFormed, Take;
    var (t, p) := MallocSpec(s, bytes, m);
    var n := Max(AlignWords(bytes), MIN_DATA);
    if p.Some? {
      TakeOwns(s, n, m, p.value, 0);
      forall q: nat, k: nat | q != p.value
        ensures Owns(t, q, k) <==> Owns(s, q, k)
      {
        TakeOwns(s, n, m, q, k);
      }
    } else {
      NothingTaken(s, n, m);
    }
  }

  lemma NothingTaken(s: State, n: nat, m: nat)
    ensures Take(s, n, m).1.None? ==> Take(s, n, m).0 == s
  {
  }

  lemma FreePeak(s: State, p: nat)
    ensures FreeSpec(s, Some(p)).maxMem == s.maxMem
  {
  }

  /** rt_free removes exactly the allocation it is given. */
  lemma FreeRemovesOne(s: State, p: nat, m: nat)
    requires WellFormed(s, m) && Live(s, p)
    ensures var t := FreeSpec(s, Some(p)); !Live(t, p) && SameBut(s, t, p) && t.maxMem == s.maxMem
  {
    FreePeak(s, p);
    hide WellFormed, FreeSpec;
    var t := FreeSpec(s, Some(p));
    if Live(t, p) { FreeOwns(s, p, m, p, SizeOf(t, p)); }
    forall q: nat, k: nat | q != p
      ensures Owns(t, q, k) <==> Owns(s, q, k)
    {
      FreeOwns(s, p, m, q, k);
    }
  }

  /** rt_realloc of a live allocation: it is freed for a size of 0 or one that wraps to 0,
      stays if there is no room, and is otherwise replaced by one that holds the bytes
      asked for; no other allocation is touched. */
  lemma ReallocReplacesOne(s: State, p: nat, bytes: nat, m: nat)
    requires WellFormed(s, m) && Positive(s.blocks) && Live(s, p) && bytes < WORD_RANGE && 4 * m + 24 < WORD_RANGE
    ensures var (t, r) := ReallocSpec(s, Some(p), bytes, m);
      && (!Live(t, p) && r.None? <==> bytes == 0 || bytes > WORD_RANGE - 4)
      && match r
         case None => if Live(t, p) then t == s else SameBut(s, t, p)
         case Some(a) =>
           && Live(t, a) && 4 * SizeOf(t, a) >= bytes
           && (a == p || (!Live(s, a) && !Live(t, p)))
           && forall q: nat, k: nat {:trigger Owns(t, q, k)} :: q != p && q != a ==> (Owns(t, q, k) <==> Owns(s, q, k))
  {
    hide WellFormed, FreeSpec, MoveSpec, Shrink, ReallocSpec, Live;
    AlignCovers(bytes);
    LiveInside(s, p, m);
    var n := AlignWords(bytes);
    ZeroWords(bytes);
    ReallocIs(s, p, bytes, m);
    if 0 < n <= m {
      if Shrinks(SizeOf(s, p), n) { ShrunkReplaces(s, p, n, m); }
      else if SizeOf(s, p) != n { MovedReplaces(s, p, n, m); }
    } else if n == 0 {
      FreeRemovesOne(s, p, m);
    }
  }

  /** The verdict of rt_malloc, with n the size rounded up: nothing for a size of 0 or one
      larger than the heap; otherwise the first block from lfree on that fits, cut to size
      if another block fits into the rest. max_mem is the highest used_mem has been. */
  lemma MallocVerdict(s: State, bytes: nat, m: nat)
    requires WellFormed(s, m) && bytes < WORD_RANGE
    ensures var (t, r) := MallocSpec(s, bytes, m); var n := Max(AlignWords(bytes), MIN_DATA);
      if bytes == 0 || AlignWords(bytes) > m then r == None && t == s
      else
        && (r.None? <==> NoneFits(s.blocks, HintAt(s), |s.blocks|, n, m)) && (r.None? ==> t == s)
        && (r.Some? ==> exists i {:trigger s.blocks[i]} ::
            HintAt(s) <= i < |s.blocks| && Handed(s, t, r.value, i, n, m))
  {
    hide WellFormed, Live, Take, NoneFits, Handed;
    var n := Max(AlignWords(bytes), MIN_DATA);
    if bytes > 0 && AlignWords(bytes) <= m {
      TakeFailsIff(s, n, m);
      NothingTaken(s, n, m);
      if Take(s, n, m).1.Some? { TakenHanded(s, n, m); }
    }
  }

  /** r is the data of block i, the first from lfree on that fits. */
  ghost predicate Handed(s: State, t: State, r: nat, i: nat, n: nat, m: nat)
    requires i < |s.blocks|
  {
    && Fits(s.blocks[i], n, m) && NoneFits(s.blocks, HintAt(s), i, n, m) && r == s.blocks[i].off + HEADER
    && Owns(t, r, if s.blocks[i].size >= n + HEADER + MIN_DATA then n else s.blocks[i].size)
    && t.maxMem == Max(s.maxMem, t.usedMem)
  }

  lemma TakenHanded(s: State, n: nat, m: nat)
    requires WellFormed(s, m) && Take(s, n, m).1.Some?
    ensures var i := Pick(s, n, m);
      HintAt(s) <= i < |s.blocks| && Handed(s, Take(s, n, m).0, Take(s, n, m).1.value, i, n, m)
  {
    hide WellFormed, Live;
    var h, i := HintAt(s), Pick(s, n, m);
    TakenBlock(s, n, m);
    forall j | h <= j < i
      ensures !Fits(s.blocks[j], n, m)
    {
      BeforeFind(s.blocks, h, n, m, j);
    }
  }

  /** The verdict of rt_realloc on a live block, with n the size rounded up. A size of 0, or
      one that wraps to 0, frees it; one larger than the heap fails. The same size, or one
      so much smaller that another block fits into the rest, always succeeds in place. Any
      other moves, which succeeds if and only if some block from lfree on fits; if it does
      not, nothing changes. */
  lemma ReallocVerdict(s: State, p: nat, bytes: nat, m: nat)
    requires WellFormed(s, m) && Positive(s.blocks) && Live(s, p) && bytes < WORD_RANGE
    ensures var (t, r) := ReallocSpec(s, Some(p), bytes, m); var n, size := AlignWords(bytes), SizeOf(s, p);
      if n > m then r == None && t == s
      else if n == 0 then r == None
      else if n == size then r == Some(p) && t == s
      else if n + HEADER + MIN_DATA < size then r == Some(p) && Owns(t, p, n)
      else
        && (r.None? <==> NoneFits(s.blocks, HintAt(s), |s.blocks|, Max(n, MIN_DATA), m)) && (r.None? ==> t == s)
        && (r.Some? ==> r != Some(p))
  {
    hide WellFormed, FreeSpec, MoveSpec, Shrink, ReallocSpec, Live, NoneFits;
    LiveInside(s, p, m);
    var n := AlignWords(bytes);
    ReallocIs(s, p, bytes, m);
    if 0 < n <= m && SizeOf(s, p) != n {
      if Shrinks(SizeOf(s, p), n) {
        ShrunkReplaces(s, p, n, m);
      } else {
        MovedReplaces(s, p, n, m);
        MovesIff(s, p, n, m);
      }
    }
  }

  lemma MovesIff(s: State, p: nat, n: nat, m: nat)
    requires WellFormed(s, m)
    ensures MoveSpec(s, p, n, m).1.None? <==> NoneFits(s.blocks, HintAt(s), |s.blocks|, Max(n, MIN_DATA), m)
  {
    hide WellFormed, FreeSpec, Take, NoneFits;
    TakeFailsIff(s, Max(n, MIN_DATA), m);
  }

  /** rt_realloc of NULL is rt_malloc, except that it refuses a size that wraps. */
  lemma ReallocNull(s: State, bytes: nat, m: nat)
    requires bytes < WORD_RANGE
    ensures ReallocSpec(s, None, bytes, m) == if 0 < bytes <= WORD_RANGE - 4 then MallocSpec(s, bytes, m) else (s, None)
  {
    ZeroWords(bytes);
  }

  /** The branches of rt_realloc. */
  lemma ReallocIs(s: State, p: nat, bytes: nat, m: nat)
    requires Live(s, p) && p < m + HEADER
    ensures var n, i := AlignWords(bytes), BlockOf(s, p);
      && (n > m ==> ReallocSpec(s, Some(p), bytes, m) == (s, None))
      && (n == 0 ==> ReallocSpec(s, Some(p), bytes, m) == (FreeSpec(s, Some(p)), None))
      && (0 < n <= m && SizeOf(s, p) == n ==> ReallocSpec(s, Some(p), bytes, m) == (s, Some(p)))
      && (0 < n <= m && Shrinks(SizeOf(s, p), n) && s.usedMem >= SizeOf(s, p) - n ==>
          ReallocSpec(s, Some(p), bytes, m) == (Shrink(s, i, n), Some(p)))
      && (0 < n <= m && SizeOf(s, p) != n && !Shrinks(SizeOf(s, p), n) ==>
          ReallocSpec(s, Some(p), bytes, m) == MoveSpec(s, p, n, m))
  {
  }

  lemma ZeroWords(bytes: nat)
    requires bytes < WORD_RANGE
    ensures AlignWords(bytes) == 0 <==> bytes == 0 || bytes > WORD_RANGE - 4
  {
    AlignCovers(bytes);
  }

  lemma LiveInside(s: State, p: nat, m: nat)
    requires WellFormed(s, m) && Positive(s.blocks) && Live(s, p)
    ensures p < m + HEADER
  {
    EndBound(s.blocks, HEADER, 0, m + HEADER, BlockOf(s, p));
  }

  lemma ShrunkReplaces(s: State, p: nat, n: nat, m: nat)
    requires WellFormed(s, m) && Live(s, p) && Shrinks(SizeOf(s, p), n)
    ensures s.usedMem >= SizeOf(s, p) - n
    ensures Owns(Shrink(s, BlockOf(s, p), n), p, n) && SameBut(s, Shrink(s, BlockOf(s, p), n), p)
  {
    hide WellFormed, Shrink;
    var i := BlockOf(s, p);
    ShrinkOwns(s, i, n, m, p, n);
    forall q: nat, k: nat | q != p
      ensures Owns(Shrink(s, i, n), q, k) <==> Owns(s, q, k)
    {
      ShrinkOwns(s, i, n, m, q, k);
    }
  }

  lemma MovedReplaces(s: State, p: nat, n: nat, m: nat)
    requires WellFormed(s, m) && Live(s, p)
    ensures var (t, r) := MoveSpec(s, p, n, m);
      && (r.None? ==> t == s)
      && (r.Some? ==> !Live(s, r.value) && Live(t, r.value) && SizeOf(t, r.value) >= n && !Live(t, p) && r.value != p
                      && forall q: nat, k: nat {:trigger Owns(t, q, k)} ::
                          q != p && q != r.value ==> (Owns(t, q, k) <==> Owns(s, q, k)))
  {
    hide WellFormed, Take, FreeSpec;
    var w := Max(n, MIN_DATA);
    var (u, r) := Take(s, w, m);
    if r.None? { NothingTaken(s, w, m); return; }
    TakeKeeps(s, w, m);
    TakeOwns(s, w, m, p, SizeOf(s, p));
    FreeRemovesOne(u, p, m);
    var t := FreeSpec(u, Some(p));
    assert Owns(t, r.value, SizeOf(u, r.value));
    forall q: nat, k: nat | q != p && q != r.value
      ensures Owns(t, q, k) <==> Owns(s, q, k)
    {
      TakeOwns(s, w, m, q, k);
    }
  }

  // ---------------------------------------------------------------- requests that wrap

  /** A request for 2^32 - 1 bytes is rounded to 0, raised to the least size, and granted
      with twelve bytes. */
  lemma WrappedMalloc()
    ensures var (t, p) := MallocSpec(Initial(40), WORD_RANGE - 1, 40);
      p == Some(3) && Live(t, 3) && 4 * SizeOf(t, 3) == 12
  {
    var bs := Initial(40).blocks;
    assert bs[..0] == [] && Pick(Initial(40), 3, 40) == 0;
    assert TakeBlocks(bs, 0, 3) == [Block(0, 3, true), Block(6, 34, false)];
  }

  /** Asked to make that allocation 2^32 - 1 bytes long, rt_realloc frees it. */
  lemma WrappedRealloc()
    ensures var s := MallocSpec(Initial(40), WORD_RANGE - 1, 40).0;
      var (t, r) := ReallocSpec(s, Some(3), WORD_RANGE - 1, 40);
      Live(s, 3) && r == None && !Live(t, 3)
  {
    hide WellFormed, Take, FreeSpec, Live, ReallocSpec, MoveSpec, Shrink;
    var s := MallocSpec(Initial(40), WORD_RANGE - 1, 40).0;
    WrappedMalloc();
    InitialKeeps(40);
    TakeKeeps(Initial(40), 3, 40);
    FreeRemovesOne(s, 3, 40);
    ReallocIs(s, 3, WORD_RANGE - 1, 40);
  }

  /** An allocation that is live before and after a step keeps its contents, word by word:
      the frame every method of the heap promises, read for one allocation. */
  lemma PayloadKept(w: seq<int>, w1: seq<int>, s: State, t: State, m: nat, q: nat, k: nat)
    requires WellFormed(s, m) && WellFormed(t, m) && Kept(w, w1, s.blocks, t.blocks, HEADER) && |w| >= m + HEADER
    requires Owns(s, q, k) && Owns(t, q, k)
    ensures q + k <= |w| == |w1| && w1[q..q + k] == w[q..q + k]
  {
    OwnsIff(s, q, k, m);
    OwnsIff(t, q, k, m);
    EndBound(s.blocks, HEADER, 0, m + HEADER, BlockOf(s, q));
    KeptBlock(w, w1, s.blocks, t.blocks, HEADER, Block(q - HEADER, k, true));
  }

  // ---------------------------------------------------------------- runs

  /** op is not handed q. */
  predicate Spares(op: Op, q: nat) {
    match op
    case OpMalloc(_) => true
    case OpFree(p) => p != Some(q)
    case OpRealloc(p, _) => p != Some(q)
  }

  lemma StepOwns(s: State, op: Op, m: nat, q: nat, k: nat)
    requires WellFormed(s, m) && Owns(s, q, k) && Spares(op, q) && 4 * m + 24 < WORD_RANGE
    ensures Owns(Step(s, op, m), q, k)
  {
    hide WellFormed, MallocSpec, FreeSpec, ReallocSpec, Take;
    match op
    case OpMalloc(bytes) => MallocAddsOne(s, bytes, m);
    case OpFree(p) => if p.Some? && Live(s, p.value) { FreeRemovesOne(s, p.value, m); } else { NotFreed(s, p); }
    case OpRealloc(p, bytes) => ReallocOwns(s, p, bytes, m, q, k);
  }

  lemma NotFreed(s: State, p: Option<nat>)
    requires p.None? || !Live(s, p.value)
    ensures FreeSpec(s, p) == s
  {
  }

  lemma ReallocOwns(s: State, p: Option<nat>, bytes: nat, m: nat, q: nat, k: nat)
    requires WellFormed(s, m) && Owns(s, q, k) && p != Some(q)
    ensures Owns(ReallocSpec(s, p, bytes, m).0, q, k)
  {
    hide WellFormed, FreeSpec, Take, Shrink;
    var n := AlignWords(bytes);
    NothingTaken(s, Max(n, MIN_DATA), m);
    if Take(s, Max(n, MIN_DATA), m).1.Some? {
      TakeOwns(s, Max(n, MIN_DATA), m, q, k);
      TakeKeeps(s, Max(n, MIN_DATA), m);
    }
    if p.Some? && Live(s, p.value) {
      FreeOwns(s, p.value, m, q, k);
      if Take(s, Max(n, MIN_DATA), m).1.Some? {
        TakeOwns(s, Max(n, MIN_DATA), m, p.value, SizeOf(s, p.value));
        FreeOwns(Take(s, Max(n, MIN_DATA), m).0, p.value, m, q, k);
      }
      if Shrinks(SizeOf(s, p.value), n) { ShrinkOwns(s, BlockOf(s, p.value), n, m, q, k); }
    } else {
      NotFreed(s, p);
    }
  }

  predicate RunSpares(ops: seq<Op>, q: nat) { forall i {:trigger ops[i]} :: 0 <= i < |ops| ==> Spares(ops[i], q) }

  /** Over every run, an allocation that no call is handed stays live with its size. */
  lemma {:induction false} RunsKeepLive(s: State, ops: seq<Op>, m: nat, q: nat, k: nat)
    requires WellFormed(s, m) && Owns(s, q, k) && RunSpares(ops, q) && 4 * m + 24 < WORD_RANGE
    ensures Owns(Run(s, ops, m), q, k)
    decreases |ops|
  {
    hide WellFormed, Step, Owns;
    if ops != [] {
      StepKeeps(s, ops[0], m);
      StepOwns(s, ops[0], m, q, k);
      RunsKeepLive(Step(s, ops[0], m), ops[1..], m, q, k);
    }
  }
}
