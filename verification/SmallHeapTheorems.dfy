/** rt-thread/src/mem.c: what holds over whole runs of malloc, free and realloc. */
module SmallHeapTheorems {
  import opened Common
  import opened Tiling
  import opened SmallHeapSpec

  datatype Op = OpMalloc(bytes: nat) | OpFree(p: Option<nat>) | OpRealloc(p: Option<nat>, bytes: nat)

  function Step(s: State, op: Op, m: nat): State {
    match op
    case OpMalloc(bytes) => MallocSpec(s, bytes, m).0
    case OpFree(p) => FreeSpec(s, p)
    case OpRealloc(p, bytes) => ReallocSpec(s, p, bytes, m).0
  }

  function Run(s: State, ops: seq<Op>, m: nat): State
    decreases |ops|
  {
    if ops == [] then s else Run(Step(s, ops[0], m), ops[1..], m)
  }

  lemma FreeKeeps(s: State, p: Option<nat>, m: nat)
    requires WellFormed(s, m)
    ensures WellFormed(FreeSpec(s, p), m)
  {
    if p.Some? && Live(s, p.value) { ReleaseKeeps(s, BlockOf(s, p.value), m); }
  }

  lemma MoveKeeps(s: State, p: nat, n: nat, m: nat)
    requires WellFormed(s, m)
    ensures WellFormed(MoveSpec(s, p, n, m).0, m)
  {
    TakeKeeps(s, Max(n, MIN_DATA), m);
    FreeKeeps(Take(s, Max(n, MIN_DATA), m).0, Some(p), m);
  }

  lemma StepKeeps(s: State, op: Op, m: nat)
    requires WellFormed(s, m)
    ensures WellFormed(Step(s, op, m), m)
  {
    hide WellFormed, Take, FreeSpec, Shrink, MoveSpec;
    match op
    case OpMalloc(bytes) => TakeKeeps(s, Max(AlignWords(bytes), MIN_DATA), m);
    case OpFree(p) => FreeKeeps(s, p, m);
    case OpRealloc(p, bytes) =>
      var n := AlignWords(bytes);
      FreeKeeps(s, p, m);
      TakeKeeps(s, Max(n, MIN_DATA), m);
      if p.Some? && Live(s, p.value) {
        var i := BlockOf(s, p.value);
        MoveKeeps(s, p.value, n, m);
        if Shrinks(s.blocks[i].size, n) { ShrinkKeeps(s, i, n, m); }
      }
  }

  lemma InitialKeeps(m: nat)
    requires m >= MIN_DATA
    ensures WellFormed(Initial(m), m) && HintLowest(Initial(m), m) && Initial(m).maxMem == Initial(m).usedMem == 0
  {
    SumsOne(Block(0, m, false), HEADER);
    assert FreeAt(Initial(m).blocks, 0) by { assert Initial(m).blocks[0].off == 0; }
  }

  /** Structure and accounting over every run: the blocks tile the heap, neighbours
      are never both free, lfree is a free block or heap_end, used_mem is the exact
      span of the used blocks. */
  lemma {:induction false} RunsKeepHeap(s: State, ops: seq<Op>, m: nat)
    requires WellFormed(s, m)
    ensures WellFormed(Run(s, ops, m), m)
    decreases |ops|
  {
    if ops != [] {
      StepKeeps(s, ops[0], m);
      RunsKeepHeap(Step(s, ops[0], m), ops[1..], m);
    }
  }

  // ---------------------------------------------------------------- the lowest-free hint

  lemma {:induction false} FirstFreeIs(bs: seq<Block>, k: nat, f: nat)
    requires k <= f <= |bs| && (f < |bs| ==> !bs[f].used)
    requires forall j {:trigger bs[j]} :: k <= j < f ==> bs[j].used
    ensures FirstFree(bs, k) == f
    decreases f - k
  {
    if k < f { FirstFreeIs(bs, k + 1, f); }
  }

  lemma AllUsedBelow(bs: seq<Block>)
    ensures forall j {:trigger bs[j]} :: 0 <= j < FirstFree(bs, 0) ==> bs[j].used
  {
    forall j | 0 <= j < FirstFree(bs, 0)
      ensures bs[j].used
    {
      BeforeFirstFree(bs, 0, j);
    }
  }

  lemma HintIndexLowest(s: State, m: nat)
    requires Tiled(s.blocks, HEADER, 0, m + HEADER) && HintLowest(s, m)
    ensures IndexFrom(s.blocks, s.lfree, 0) == FirstFree(s.blocks, 0)
  {
    IndexUnique(s.blocks, s.lfree, FirstFree(s.blocks, 0), m);
  }

  lemma TakeLowest(s: State, n: nat, m: nat)
    requires WellFormed(s, m) && HintLowest(s, m)
    ensures HintLowest(Take(s, n, m).0, m)
  {
    var bs, i := s.blocks, Pick(s, n, m);
    if i < |bs| {
      var f := FirstFree(bs, 0);
      HintIndexLowest(s, m);
      AllUsedBelow(bs);
      var r := TakeBlocks(bs, i, n);
      if i == f {
        var g := FirstFree(r, i);
        forall j | 0 <= j < g
          ensures r[j].used
        {
          if j >= i { BeforeFirstFree(r, i, j); }
        }
        FirstFreeIs(r, 0, g);
      } else {
        Ordered(bs, HEADER, 0, m + HEADER, f, i);
        FirstFreeIs(r, 0, f);
      }
    }
  }

  /** plug_holes around the free block i, when lfree names the lowest free block. */
  lemma CoalesceLowest(bs: seq<Block>, lfree: nat, i: nat, f: nat, m: nat)
    requires Tiled(bs, HEADER, 0, m + HEADER) && i < |bs| && !bs[i].used
    requires f <= i && !bs[f].used && lfree == bs[f].off
    requires forall j {:trigger bs[j]} :: 0 <= j < f ==> bs[j].used
    ensures var c := Coalesce(bs, i, HEADER); FirstFree(c, 0) == f && f < |c| && PlugHint(bs, lfree, i) == c[f].off
  {
    var c := Coalesce(bs, i, HEADER);
    if f < i { Ordered(bs, HEADER, 0, m + HEADER, f, i); }
    if i + 1 < |bs| { Ordered(bs, HEADER, 0, m + HEADER, f, i + 1); }
    FirstFreeIs(c, 0, f);
  }

  lemma ReleaseLowest(s: State, i: nat, m: nat)
    requires WellFormed(s, m) && HintLowest(s, m) && i < |s.blocks| && s.blocks[i].used
        && s.usedMem >= HEADER + s.blocks[i].size
    ensures HintLowest(Release(s, i), m)
  {
    var f := FirstFree(s.blocks, 0);
    var bs := Mark(s.blocks, i, false);
    AllUsedBelow(s.blocks);
    MarkKeeps(s.blocks, i, false, HEADER, 0, m + HEADER);
    EndBound(s.blocks, HEADER, 0, m + HEADER, i);
    if f < i {
      Ordered(s.blocks, HEADER, 0, m + HEADER, f, i);
      CoalesceLowest(bs, s.lfree, i, f, m);
    } else {
      if f < |s.blocks| { Ordered(s.blocks, HEADER, 0, m + HEADER, i, f); }
      CoalesceLowest(bs, bs[i].off, i, i, m);
    }
  }

  /** A shrinking realloc is the one operation that can leave a free block below
      lfree. It does not exactly when lfree was at or before the block behind the
      one being shrunk, heap_end excepted. */
  lemma ShrinkLowestIff(s: State, i: nat, n: nat, m: nat)
    requires WellFormed(s, m) && HintLowest(s, m) && i < |s.blocks| && s.blocks[i].used
    requires n + HEADER <= s.blocks[i].size && s.usedMem >= s.blocks[i].size - n
    ensures HintLowest(Shrink(s, i, n), m)
            <==> s.lfree <= NextOff(s.blocks, i, m + HEADER) && s.lfree != m + HEADER
  {
    hide Coalesce, Split, FirstFree, Tiled, Coalesced, PlugHint, UsedSpan;
    if FirstFree(s.blocks, 0) < i {
      ShrinkHintBelow(s, i, n, m);
    } else {
      UsedNotFirstFree(s.blocks, i);
      RemainderIsLowest(s.blocks, i, n);
      ShrinkHintAbove(s, i, n, m);
    }
  }

  lemma UsedNotFirstFree(bs: seq<Block>, i: nat)
    requires i < |bs| && bs[i].used
    ensures FirstFree(bs, 0) != i
  {
  }

  lemma NextIs(bs: seq<Block>, i: nat, m: nat)
    requires Tiled(bs, HEADER, 0, m + HEADER) && i < |bs|
    ensures NextOff(bs, i, m + HEADER) == bs[i].off + HEADER + bs[i].size
  {
  }

  lemma ShrinkHintBelow(s: State, i: nat, n: nat, m: nat)
    requires WellFormed(s, m) && HintLowest(s, m) && i < |s.blocks| && s.blocks[i].used && FirstFree(s.blocks, 0) < i
    requires n + HEADER <= s.blocks[i].size && s.usedMem >= s.blocks[i].size - n
    ensures HintLowest(Shrink(s, i, n), m)
    ensures s.lfree <= NextOff(s.blocks, i, m + HEADER) && s.lfree != m + HEADER
  {
    hide Coalesced, Coalesce, UsedSpan, HintOk, PlugHint, Tiled;
    var f := FirstFree(s.blocks, 0);
    ShrunkTiled(s.blocks, i, n, m);
    EndBound(s.blocks, HEADER, 0, m + HEADER, i);
    NextIs(s.blocks, i, m);
    Ordered(s.blocks, HEADER, 0, m + HEADER, f, i);
    AllUsedBelow(s.blocks);
    CoalesceLowest(Split(s.blocks, i, n, HEADER), s.lfree, i + 1, f, m);
  }

  /** Where plug_holes leaves an lfree that lay above the block being shrunk. */
  lemma ShrinkHintAbove(s: State, i: nat, n: nat, m: nat)
    requires Tiled(s.blocks, HEADER, 0, m + HEADER) && HintLowest(s, m) && i < FirstFree(s.blocks, 0)
        && n + HEADER <= s.blocks[i].size
    ensures PlugHint(Split(s.blocks, i, n, HEADER), s.lfree, i + 1)
         == (if s.lfree <= NextOff(s.blocks, i, m + HEADER) && s.lfree != m + HEADER then s.blocks[i].off + HEADER + n
             else s.lfree)
    ensures s.lfree >= s.blocks[i].off + HEADER + s.blocks[i].size
  {
    var bs, f, hi := s.blocks, FirstFree(s.blocks, 0), m + HEADER;
    assert NextOff(bs, i, hi) == bs[i].off + HEADER + bs[i].size;
    EndBound(bs, HEADER, 0, hi, i);
    if i + 1 < |bs| { EndBound(bs, HEADER, 0, hi, i + 1); }
    if i + 1 < f {
      BeforeFirstFree(bs, 0, i + 1);
      if f < |bs| { Ordered(bs, HEADER, 0, hi, i + 1, f); }
    }
  }

  lemma RemainderIsLowest(bs: seq<Block>, i: nat, n: nat)
    requires i < |bs| && n + HEADER <= bs[i].size && i < FirstFree(bs, 0)
    ensures var c := Coalesce(Split(bs, i, n, HEADER), i + 1, HEADER);
            i + 1 < |c| && FirstFree(c, 0) == i + 1 && c[i + 1].off == bs[i].off + HEADER + n
  {
    var b1 := Split(bs, i, n, HEADER);
    var c := Coalesce(b1, i + 1, HEADER);
    CoalescePrefix(b1, i + 1);
    forall j | 0 <= j < i + 1
      ensures c[j].used
    {
      if j < i { BeforeFirstFree(bs, 0, j); }
      assert c[j] == b1[j];
    }
    FirstFreeIs(c, 0, i + 1);
  }

  lemma CoalescePrefix(bs: seq<Block>, i: nat)
    requires 0 < i < |bs| && bs[i - 1].used
    ensures var c := Coalesce(bs, i, HEADER);
            i < |c| && c[i].off == bs[i].off && c[i].used == bs[i].used && forall j {:trigger c[j]} ::
                0 <= j < i ==> c[j] == bs[j]
  {
  }

  /** op is not a realloc that shrinks in place below lfree. */
  predicate KeepsHint(s: State, op: Op, m: nat) {
    op.OpRealloc? && op.p.Some? && Live(s, op.p.value) ==>
      var i, n := BlockOf(s, op.p.value), AlignWords(op.bytes);
      Shrinks(s.blocks[i].size, n) && 0 < n <= m && op.p.value < m + HEADER
      ==> s.lfree <= NextOff(s.blocks, i, m + HEADER) && s.lfree != m + HEADER
  }

  predicate RunKeepsHint(s: State, ops: seq<Op>, m: nat)
    decreases |ops|
  {
    ops == [] || (KeepsHint(s, ops[0], m) && RunKeepsHint(Step(s, ops[0], m), ops[1..], m))
  }

  lemma FreeLowest(s: State, p: Option<nat>, m: nat)
    requires WellFormed(s, m) && HintLowest(s, m)
    ensures HintLowest(FreeSpec(s, p), m)
  {
    if p.Some? && Live(s, p.value) && s.usedMem >= HEADER + s.blocks[BlockOf(s, p.value)].size {
      ReleaseLowest(s, BlockOf(s, p.value), m);
    }
  }

  lemma MoveLowest(s: State, p: nat, n: nat, m: nat)
    requires WellFormed(s, m) && HintLowest(s, m)
    ensures HintLowest(MoveSpec(s, p, n, m).0, m)
  {
    hide WellFormed, HintLowest, Take, FreeSpec;
    TakeKeeps(s, Max(n, MIN_DATA), m);
    TakeLowest(s, Max(n, MIN_DATA), m);
    FreeLowest(Take(s, Max(n, MIN_DATA), m).0, Some(p), m);
  }

  lemma ReallocLowestIff(s: State, p: Option<nat>, bytes: nat, m: nat)
    requires WellFormed(s, m) && HintLowest(s, m)
    ensures HintLowest(ReallocSpec(s, p, bytes, m).0, m) <==> KeepsHint(s, OpRealloc(p, bytes), m)
  {
    hide WellFormed, HintLowest, Take, FreeSpec, MoveSpec, Shrink, Live, NextOff;
    var n := AlignWords(bytes);
    FreeLowest(s, p, m);
    if p.None? {
      TakeLowest(s, Max(n, MIN_DATA), m);
    } else if Live(s, p.value) {
      var i := BlockOf(s, p.value);
      LiveSpan(s, p.value, m);
      if Shrinks(s.blocks[i].size, n) { ShrinkLowestIff(s, i, n, m); } else { MoveLowest(s, p.value, n, m); }
    }
  }

  lemma LiveSpan(s: State, p: nat, m: nat)
    requires WellFormed(s, m) && Live(s, p)
    ensures var i := BlockOf(s, p); i < |s.blocks| && s.blocks[i].used && s.usedMem >= HEADER + s.blocks[i].size
  {
    UsedSpanCovers(s.blocks, BlockOf(s, p));
  }

  /** Every call keeps lfree lowest, except exactly for such a realloc. */
  lemma StepLowestIff(s: State, op: Op, m: nat)
    requires WellFormed(s, m) && HintLowest(s, m)
    ensures HintLowest(Step(s, op, m), m) <==> KeepsHint(s, op, m)
  {
    hide WellFormed, HintLowest, Take, FreeSpec, ReallocSpec;
    match op
    case OpMalloc(bytes) => TakeLowest(s, Max(AlignWords(bytes), MIN_DATA), m);
    case OpFree(p) => FreeLowest(s, p, m);
    case OpRealloc(p, bytes) => ReallocLowestIff(s, p, bytes, m);
  }

  /** lfree is the lowest free block at every point of the run. */
  ghost predicate AlwaysLowest(s: State, ops: seq<Op>, m: nat)
    decreases |ops|
  {
    HintLowest(s, m) && (ops == [] || AlwaysLowest(Step(s, ops[0], m), ops[1..], m))
  }

  /** Over a run lfree stays the lowest free block if and only if no realloc of the run
      shrinks in place below it. */
  lemma {:induction false} RunsKeepLowest(s: State, ops: seq<Op>, m: nat)
    requires WellFormed(s, m) && HintLowest(s, m)
    ensures AlwaysLowest(s, ops, m) <==> RunKeepsHint(s, ops, m)
    decreases |ops|
  {
    hide WellFormed, HintLowest, Step, KeepsHint;
    if ops != [] {
      StepKeeps(s, ops[0], m);
      StepLowestIff(s, ops[0], m);
      if KeepsHint(s, ops[0], m) {
        RunsKeepLowest(Step(s, ops[0], m), ops[1..], m);
      } else {
        NotLowest(Step(s, ops[0], m), ops[1..], m);
      }
    }
  }

  lemma NotLowest(s: State, ops: seq<Op>, m: nat)
    requires !HintLowest(s, m)
    ensures !AlwaysLowest(s, ops, m)
  {
  }

  // ---------------------------------------------------------------- completeness

  /** While lfree is the lowest free block, the hinted search is plain first fit over
      the whole heap: it picks the lowest block that fits and fails only if none does. */
  lemma TakeIsFirstFit(s: State, n: nat, m: nat)
    requires WellFormed(s, m) && HintLowest(s, m)
    ensures Pick(s, n, m) == Find(s.blocks, 0, n, m)
    ensures Take(s, n, m).1.None?
        <==> forall i {:trigger s.blocks[i]} :: 0 <= i < |s.blocks| ==> !Fits(s.blocks[i], n, m)
    ensures Take(s, n, m).1.Some? ==>
              forall i {:trigger s.blocks[i]} :: 0 <= i < Pick(s, n, m) ==> !Fits(s.blocks[i], n, m)
  {
    var bs, f := s.blocks, FirstFree(s.blocks, 0);
    HintIndexLowest(s, m);
    AllUsedBelow(bs);
    SkipUnfit(bs, 0, f, n, m);
    forall i | 0 <= i < Pick(s, n, m)
      ensures !Fits(bs[i], n, m)
    {
      BeforeFind(bs, 0, n, m, i);
    }
  }

  lemma {:induction false} SkipUnfit(bs: seq<Block>, k: nat, f: nat, n: nat, m: nat)
    requires k <= f <= |bs| && forall j {:trigger bs[j]} :: k <= j < f ==> !Fits(bs[j], n, m)
    ensures Find(bs, k, n, m) == Find(bs, f, n, m)
    decreases f - k
  {
    if k < f { SkipUnfit(bs, k + 1, f, n, m); }
  }

  /** Index of the block lfree names, or of heap_end. */
  function HintAt(s: State): nat { IndexFrom(s.blocks, s.lfree, 0) }

  /** No block from index a up to b fits. */
  predicate NoneFits(bs: seq<Block>, a: nat, b: nat, n: nat, m: nat)
    requires b <= |bs|
  {
    forall i {:trigger bs[i]} :: a <= i < b ==> !Fits(bs[i], n, m)
  }

  /** In any state at all, a request fails if and only if nothing fits from lfree on. */
  lemma TakeFailsIff(s: State, n: nat, m: nat)
    requires WellFormed(s, m)
    ensures Take(s, n, m).1.None? <==> NoneFits(s.blocks, HintAt(s), |s.blocks|, n, m)
  {
    var h, i := HintAt(s), Pick(s, n, m);
    forall j | h <= j < i
      ensures !Fits(s.blocks[j], n, m)
    {
      BeforeFind(s.blocks, h, n, m, j);
    }
  }

  /** The search is first fit over the whole heap if and only if nothing that fits lies
      below lfree. */
  lemma FirstFitIff(s: State, n: nat, m: nat)
    requires WellFormed(s, m)
    ensures Pick(s, n, m) == Find(s.blocks, 0, n, m) <==> NoneFits(s.blocks, 0, HintAt(s), n, m)
  {
    var h, i := HintAt(s), Find(s.blocks, 0, n, m);
    if NoneFits(s.blocks, 0, h, n, m) {
      SkipUnfit(s.blocks, 0, h, n, m);
    } else {
      var j :| 0 <= j < h && Fits(s.blocks[j], n, m);
      if j < i { BeforeFind(s.blocks, 0, n, m, j); }
    }
  }

  /** So a request fails although some free block fits if and only if all that fit, and
      there are some, lie below lfree. */
  lemma LostIff(s: State, n: nat, m: nat)
    requires WellFormed(s, m)
    ensures Take(s, n, m).1.None? && !NoneFits(s.blocks, 0, |s.blocks|, n, m)
      <==> !NoneFits(s.blocks, 0, HintAt(s), n, m) && NoneFits(s.blocks, HintAt(s), |s.blocks|, n, m)
  {
    TakeFailsIff(s, n, m);
    if !NoneFits(s.blocks, 0, HintAt(s), n, m) {
      var j :| 0 <= j < HintAt(s) && Fits(s.blocks[j], n, m);
      assert Fits(s.blocks[j], n, m);
    }
  }

  /** The only free blocks of sufficient size the search refuses are exact fits that
      end at heap_end. */
  lemma OnlyExactEndRefused(s: State, i: nat, n: nat, m: nat)
    requires WellFormed(s, m) && i < |s.blocks| && !s.blocks[i].used && s.blocks[i].size >= n
    ensures Fits(s.blocks[i], n, m) <==> !(s.blocks[i].size == n && i == |s.blocks| - 1)
  {
    EndBound(s.blocks, HEADER, 0, m + HEADER, i);
    assert NextOff(s.blocks, i, m + HEADER) == s.blocks[i].off + HEADER + s.blocks[i].size;
    if i + 1 < |s.blocks| { EndBound(s.blocks, HEADER, 0, m + HEADER, i + 1); }
  }

  /** So the whole of a fresh heap can never be allocated in one piece. */
  lemma FreshHeapRefusesAll(m: nat)
    requires m >= MIN_DATA
    ensures Take(Initial(m), m, m) == (Initial(m), None)
  {
    var bs := Initial(m).blocks;
    assert IndexFrom(bs, 0, 0) == 0 && Find(bs, 0, m, m) == Find(bs, 1, m, m);
  }

  /** The block handed out holds the bytes asked for exactly when rounding the
      request up to a multiple of four does not wrap. */
  lemma MallocCovers(s: State, bytes: nat, m: nat)
    requires WellFormed(s, m) && bytes < WORD_RANGE && 4 * m + 24 < WORD_RANGE && MallocSpec(s, bytes, m).1.Some?
    ensures var (t, p) := MallocSpec(s, bytes, m);
            Live(t, p.value) && (4 * t.blocks[BlockOf(t, p.value)].size >= bytes <==> bytes <= WORD_RANGE - 4)
  {
    var n := Max(AlignWords(bytes), MIN_DATA);
    var t, i := Take(s, n, m).0, Pick(s, n, m);
    AlignCovers(bytes);
    TakeKeeps(s, n, m);
    assert t.blocks[i].off == s.blocks[i].off && t.blocks[i].used && t.blocks[i].size >= n;
    LiveIndex(t, i, m);
    EndBound(t.blocks, HEADER, 0, m + HEADER, i);
  }

  /** A run that gets there: two allocations, a realloc of the first to one word, and a
      third request for 12 bytes, on a heap of 40 words. */
  lemma ShrunkBlockIsLost()
    ensures var s := Run(Initial(40), [OpMalloc(80), OpMalloc(64), OpRealloc(Some(3), 4)], 40);
      && WellFormed(s, 40) && MallocSpec(s, 12, 40).1.None?
      && !NoneFits(s.blocks, 0, HintAt(s), 3, 40) && NoneFits(s.blocks, HintAt(s), |s.blocks|, 3, 40)
  {
    var o := [OpMalloc(80), OpMalloc(64), OpRealloc(Some(3), 4)];
    assert o[1..] == [OpMalloc(64), OpRealloc(Some(3), 4)] && o[1..][1..] == [OpRealloc(Some(3), 4)]
        && o[1..][1..][1..] == [];
    LostFirst();
    LostSecond();
    LostThird();
    InitialKeeps(40);
    RunsKeepHeap(Initial(40), o, 40);
    hide WellFormed;
    var s := State([Block(0, 1, true), Block(4, 16, false), Block(23, 17, true)], 43, 24, 43);
    assert IndexFrom(s.blocks, 43, 0) == IndexFrom(s.blocks, 43, 1) == IndexFrom(s.blocks, 43, 2) ==
        IndexFrom(s.blocks, 43, 3) == 3;
    assert Fits(s.blocks[1], 3, 40);
  }

  lemma LostFirst()
    ensures Step(Initial(40), OpMalloc(80), 40) == State([Block(0, 20, true), Block(23, 17, false)], 23, 23, 23)
  {
    var bs := Initial(40).blocks;
    assert bs[..0] == [] && Pick(Initial(40), 20, 40) == 0;
    assert TakeBlocks(bs, 0, 20) == [Block(0, 20, true), Block(23, 17, false)];
  }

  lemma LostSecond()
    ensures Step(State([Block(0, 20, true), Block(23, 17, false)], 23, 23, 23), OpMalloc(64), 40)
         == State([Block(0, 20, true), Block(23, 17, true)], 43, 43, 43)
  {
    var s := State([Block(0, 20, true), Block(23, 17, false)], 23, 23, 23);
    assert IndexFrom(s.blocks, 23, 0) == IndexFrom(s.blocks, 23, 1) == 1;
    assert Pick(s, 16, 40) == 1;
    var bs := TakeBlocks(s.blocks, 1, 16);
    assert bs == [Block(0, 20, true), Block(23, 17, true)];
    assert FirstFree(bs, 1) == FirstFree(bs, 2) == 2;
  }

  lemma LostThird()
    ensures Step(State([Block(0, 20, true), Block(23, 17, true)], 43, 43, 43), OpRealloc(Some(3), 4), 40)
         == State([Block(0, 1, true), Block(4, 16, false), Block(23, 17, true)], 43, 24, 43)
  {
    var s := State([Block(0, 20, true), Block(23, 17, true)], 43, 43, 43);
    assert BlockOf(s, 3) == 0;
    assert Split(s.blocks, 0, 1, HEADER) == [Block(0, 1, true), Block(4, 16, false), Block(23, 17, true)];
  }

  // ---------------------------------------------------------------- safety and inverses

  /** Live allocations lie inside the heap and never overlap. */
  lemma LiveDisjoint(s: State, p: nat, q: nat, m: nat)
    requires WellFormed(s, m) && Live(s, p) && Live(s, q) && p < q
    ensures var a, b := s.blocks[BlockOf(s, p)], s.blocks[BlockOf(s, q)];
            p + a.size + HEADER <= q && q + b.size <= m + HEADER
  {
    var i, j := BlockOf(s, p), BlockOf(s, q);
    EndBound(s.blocks, HEADER, 0, m + HEADER, j);
    if j < i { Ordered(s.blocks, HEADER, 0, m + HEADER, j, i); }
    if i < j { Ordered(s.blocks, HEADER, 0, m + HEADER, i, j); }
  }

  /** Freeing what malloc returned restores the heap: blocks, hint and byte count. */
  lemma FreeUndoesMalloc(s: State, bytes: nat, m: nat)
    requires WellFormed(s, m) && MallocSpec(s, bytes, m).1.Some?
    ensures var (t, p) := MallocSpec(s, bytes, m); FreeSpec(t, p) == s.(maxMem := t.maxMem)
  {
    FreeUndoesTake(s, Max(AlignWords(bytes), MIN_DATA), m);
  }

  lemma FreeUndoesTake(s: State, n: nat, m: nat)
    requires WellFormed(s, m) && Take(s, n, m).1.Some?
    ensures FreeSpec(Take(s, n, m).0, Take(s, n, m).1) == s.(maxMem := Take(s, n, m).0.maxMem)
  {
    hide WellFormed, HintOk, TakeBlocks, Split, Mark, Coalesce, FirstFree, Tiled, PlugHint;
    var i, t := Pick(s, n, m), Take(s, n, m).0;
    TakeKeeps(s, n, m);
    BlocksComeBack(s, n, m);
    FreeIs(t, i, m);
    HintComesBack(s, n, m);
  }

  lemma BlocksComeBack(s: State, n: nat, m: nat)
    requires WellFormed(s, m) && Take(s, n, m).1.Some?
    ensures var i, t := Pick(s, n, m), Take(s, n, m).0;
      && i < |t.blocks| && t.blocks[i].off == s.blocks[i].off && t.blocks[i].used
      && t.usedMem == s.usedMem + HEADER + t.blocks[i].size
      && Mark(t.blocks, i, false)[i].off == t.blocks[i].off && Mark(t.blocks, i, false)[i].size == t.blocks[i].size
      && Coalesce(Mark(t.blocks, i, false), i, HEADER) == s.blocks
  {
    var i := Pick(s, n, m);
    if Cuts(s.blocks[i], n) {
      ReleaseUndoesSplit(s.blocks, i, n, HEADER);
    } else {
      ReleaseUndoesMark(s.blocks, i, HEADER);
    }
  }

  lemma HintComesBack(s: State, n: nat, m: nat)
    requires WellFormed(s, m) && Take(s, n, m).1.Some?
    ensures var i, t := Pick(s, n, m), Take(s, n, m).0;
            PlugHint(Mark(t.blocks, i, false), Min(t.blocks[i].off, t.lfree), i) == s.lfree
  {
    var i, t := Pick(s, n, m), Take(s, n, m).0;
    TakeKeeps(s, n, m);
    EndBound(s.blocks, HEADER, 0, m + HEADER, i);
    HintIndex(s, m);
    assert i > 0 ==> NotBothFree(s.blocks, i);
    if s.blocks[i].off == s.lfree && FirstFree(t.blocks, i) < |t.blocks| {
      Ordered(t.blocks, HEADER, 0, m + HEADER, i, FirstFree(t.blocks, i));
    }
    var k := IndexFrom(s.blocks, s.lfree, 0);
    if k < i { Ordered(s.blocks, HEADER, 0, m + HEADER, k, i); }
    if i + 1 < |t.blocks| { Ordered(t.blocks, HEADER, 0, m + HEADER, i, i + 1); }
  }

  /** When nothing is live any more the heap is as it was after initialisation, in
      whatever order the blocks were released. */
  lemma NothingLiveIsInitial(s: State, m: nat)
    requires WellFormed(s, m)
    ensures (forall i {:trigger s.blocks[i]} :: 0 <= i < |s.blocks| ==> !s.blocks[i].used)
            ==> s.blocks == Initial(m).blocks && s.usedMem == 0
  {
    AllFreeIsWhole(s.blocks, HEADER, 0, m + HEADER);
    SumsOne(Block(0, m, false), HEADER);
  }
}
