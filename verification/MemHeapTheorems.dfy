/** rt-thread/src/memheap.c: what holds over whole runs of alloc, free and realloc. */
module MemHeapTheorems {
  import opened Common
  import opened Lists
  import opened Tiling
  import opened MemHeapSpec

  datatype Op = OpAlloc(bytes: nat) | OpFree(q: Option<nat>) | OpRealloc(q: Option<nat>, bytes: nat)

  function Step(s: State, op: Op, p: nat): State {
    match op
    case OpAlloc(bytes) => AllocSpec(s, bytes, p).0
    case OpFree(q) => FreeSpec(s, q)
    case OpRealloc(q, bytes) => ReallocSpec(s, q, bytes, p).0
  }

  function Run(s: State, ops: seq<Op>, p: nat): State
    decreases |ops|
  {
    if ops == [] then s else Run(Step(s, ops[0], p), ops[1..], p)
  }

  lemma InitialKeeps(p: nat)
    requires p >= 2 * HEADER
    ensures WellFormed(Initial(p), p) && Initial(p).maxUsed == p - Initial(p).avail
  {
    var b := Initial(p).blocks[0];
    SumsOne(b, HEADER);
    assert At(Initial(p).blocks, START) == 0;
  }

  lemma FreeKeeps(s: State, q: Option<nat>, p: nat)
    requires WellFormed(s, p)
    ensures WellFormed(FreeSpec(s, q), p)
  {
    hide WellFormed;
    if q.Some? && Live(s, q.value) { ReleaseKeeps(s, At(s.blocks, q.value - HEADER), p); }
  }

  lemma MoveKeeps(s: State, q: nat, n: nat, p: nat)
    requires WellFormed(s, p)
    ensures WellFormed(MoveSpec(s, q, n, p).0, p)
  {
    hide WellFormed;
    TakeKeeps(s, n, p);
    FreeKeeps(Take(s, n, p).0, Some(q), p);
  }

  lemma ResizeKeepsIff(s: State, i: nat, n: nat, p: nat)
    requires WellFormed(s, p) && i < |s.blocks| && s.blocks[i].used && n < WORDS && 4 * p <= WORD_RANGE
    ensures WellFormed(ResizeSpec(s, i, n, p).0, p) <==> !Misfires(s, i, n)
  {
    hide WellFormed, Grow, Shrink, MoveSpec, Grows32;
    MoveKeeps(s, s.blocks[i].off + HEADER, n, p);
    if n > s.blocks[i].size {
      if Passes(s.blocks, i, n) { GrowKeepsIff(s, i, n, p); }
    } else if Shrinks(s.blocks[i].size, n) {
      ShrinkKeeps(s, i, n, p);
    }
  }

  /** op grows a live block to a size for which the test of the code wraps, while the
      block behind it is free. */
  predicate StepMisfires(s: State, op: Op) {
    op.OpRealloc? && op.q.Some? && op.bytes > 0 && Live(s, op.q.value)
        && Misfires(s, At(s.blocks, op.q.value - HEADER), Words32(op.bytes))
  }

  /** Every step keeps the structure, except exactly for such a realloc. */
  lemma StepKeepsIff(s: State, op: Op, p: nat)
    requires WellFormed(s, p) && 4 * p <= WORD_RANGE
    ensures WellFormed(Step(s, op, p), p) <==> !StepMisfires(s, op)
  {
    hide WellFormed, Take, FreeSpec, ResizeSpec, Misfires;
    match op
    case OpAlloc(bytes) => TakeKeeps(s, Words32(bytes), p);
    case OpFree(q) => FreeKeeps(s, q, p);
    case OpRealloc(q, bytes) =>
      FreeKeeps(s, q, p);
      TakeKeeps(s, Words32(bytes), p);
      if q.Some? && Live(s, q.value) { ResizeKeepsIff(s, At(s.blocks, q.value - HEADER), Words32(bytes), p); }
  }

  /** Every state along a run is sound. */
  ghost predicate Sound(s: State, ops: seq<Op>, p: nat)
    decreases |ops|
  {
    WellFormed(s, p) && (ops == [] || Sound(Step(s, ops[0], p), ops[1..], p))
  }

  predicate NoMisfire(s: State, ops: seq<Op>, p: nat)
    decreases |ops|
  {
    ops == [] || (!StepMisfires(s, ops[0]) && NoMisfire(Step(s, ops[0], p), ops[1..], p))
  }

  /** Structure and accounting over every run: the blocks tile the pool up to the tail
      block, neighbours are never both free, the free list holds exactly the unused
      blocks once each, available_size is the sum of their data sizes, and
      max_used_size never falls below what is in use; if and only if no realloc of the
      run misfires. */
  lemma {:induction false} RunsKeepHeap(s: State, ops: seq<Op>, p: nat)
    requires WellFormed(s, p) && 4 * p <= WORD_RANGE
    ensures Sound(s, ops, p) <==> NoMisfire(s, ops, p)
    decreases |ops|
  {
    hide WellFormed, Step, StepMisfires;
    if ops != [] {
      StepKeepsIff(s, ops[0], p);
      if !StepMisfires(s, ops[0]) {
        RunsKeepHeap(Step(s, ops[0], p), ops[1..], p);
      } else {
        Unsound(Step(s, ops[0], p), ops[1..], p);
      }
    }
  }

  lemma Unsound(s: State, ops: seq<Op>, p: nat)
    requires !WellFormed(s, p)
    ensures !Sound(s, ops, p)
  {
  }

  lemma {:induction false} BeforeFound(bs: seq<Block>, free: seq<nat>, k: nat, n: nat, j: nat)
    requires k <= |free| && k <= j < FindFree(bs, free, k, n)
    ensures !FitsAt(bs, free[j], n)
    decreases j - k
  {
    if k < j { BeforeFound(bs, free, k + 1, n, j); }
  }

  /** rt_memheap_alloc succeeds exactly when the rounded size is below available_size
      and some free block is large enough. */
  lemma AllocIff(s: State, bytes: nat, p: nat)
    requires WellFormed(s, p)
    ensures AllocSpec(s, bytes, p).1.Some?
      <==> Words32(bytes) < s.avail && exists i {:trigger s.blocks[i]} ::
          0 <= i < |s.blocks| && !s.blocks[i].used && s.blocks[i].size >= Words32(bytes)
  {
    var n, bs := Words32(bytes), s.blocks;
    var k := FindFree(bs, s.free, 0, n);
    if k < |s.free| {
      FoundIsFree(s, k, p);
      assert bs[At(bs, s.free[k])].size >= n;
    } else {
      forall i | 0 <= i < |bs| && !bs[i].used
        ensures bs[i].size < n
      {
        var j :| 0 <= j < |s.free| && s.free[j] == bs[i].off;
        AtIs(bs, i, p);
        BeforeFound(bs, s.free, 0, n, j);
      }
    }
  }

  /** What is handed out is live and at least as large as the rounded request; that is
      at least the request itself exactly when rounding does not wrap. */
  lemma AllocCovers(s: State, bytes: nat, p: nat)
    requires WellFormed(s, p) && bytes < WORD_RANGE && 4 * p < WORD_RANGE - 4 && AllocSpec(s, bytes, p).1.Some?
    ensures var (t, q) := AllocSpec(s, bytes, p);
      Live(t, q.value) && t.blocks[At(t.blocks, q.value - HEADER)].size >= Words32(bytes)
      && (4 * t.blocks[At(t.blocks, q.value - HEADER)].size >= bytes <==> bytes <= WORD_RANGE - 4)
  {
    var n := Words32(bytes);
    var k := FindFree(s.blocks, s.free, 0, n);
    FoundIsFree(s, k, p);
    TakeKeeps(s, n, p);
    AlignCovers(bytes);
    var t, i := Take(s, n, p).0, At(s.blocks, s.free[k]);
    assert t.blocks[i].off == s.blocks[i].off && t.blocks[i].used && t.blocks[i].size >= n;
    AtIs(t.blocks, i, p);
    EndBound(t.blocks, HEADER, START, p, i);
  }

  /** Live allocations lie inside the pool and never overlap. */
  lemma LiveDisjoint(s: State, q: nat, r: nat, p: nat)
    requires WellFormed(s, p) && Live(s, q) && Live(s, r) && q < r
    ensures var a, b := s.blocks[At(s.blocks, q - HEADER)], s.blocks[At(s.blocks, r - HEADER)];
            START + HEADER <= q && q + a.size + HEADER <= r && r + b.size <= p
  {
    var i, j := At(s.blocks, q - HEADER), At(s.blocks, r - HEADER);
    EndBound(s.blocks, HEADER, START, p, j);
    EndBound(s.blocks, HEADER, START, p, i);
    if j < i { Ordered(s.blocks, HEADER, START, p, j, i); }
    if i < j { Ordered(s.blocks, HEADER, START, p, i, j); }
  }

  /** Freeing what alloc returned restores the blocks and the byte count; the free list
      may come back in another order, with the same members. */
  lemma FreeUndoesAlloc(s: State, bytes: nat, p: nat)
    requires WellFormed(s, p) && AllocSpec(s, bytes, p).1.Some?
    ensures var (t, q) := AllocSpec(s, bytes, p);
      var u := FreeSpec(t, q);
      u.blocks == s.blocks && u.avail == s.avail && forall x {:trigger x in u.free} :: x in u.free <==> x in s.free
  {
    hide Listed, Tiled, Coalesced, Coalesce, Mark, TakeBlocks;
    var n := Words32(bytes);
    var k := FindFree(s.blocks, s.free, 0, n);
    FoundIsFree(s, k, p);
    var i := At(s.blocks, s.free[k]);
    TakeAtKeeps(s, i, n, p);
    var t := TakeAt(s, i, n, p);
    TakenBlock(s.blocks, i, n, p, t.blocks);
    ReleaseKeeps(t, i, p);
    SameFree(s.blocks, s.free, Release(t, i).free, p);
  }

  lemma TakenBlock(bs: seq<Block>, i: nat, n: nat, p: nat, t: seq<Block>)
    requires Coalesced(bs) && i < |bs| && !bs[i].used && bs[i].size >= n && t == TakeBlocks(bs, i, n)
        && Tiled(t, HEADER, START, p)
    ensures i < |t| && t[i].used && t[i].off == bs[i].off && At(t, bs[i].off) == i
    ensures Coalesce(Mark(t, i, false), i, HEADER) == bs
  {
    AtIs(t, i, p);
    if Cuts(bs[i].size, n) { ReleaseUndoesSplit(bs, i, n, HEADER); } else { ReleaseUndoesMark(bs, i, HEADER); }
  }

  lemma SameFree(bs: seq<Block>, f: seq<nat>, g: seq<nat>, p: nat)
    requires Tiled(bs, HEADER, START, p) && Listed(bs, f) && Listed(bs, g)
    ensures forall x {:trigger x in g} :: x in g <==> x in f
  {
    forall x
      ensures x in g <==> x in f
    {
      if x in g { assert bs[At(bs, x)].off == x; }
      if x in f { assert bs[At(bs, x)].off == x; }
    }
  }

  lemma OnlyOne(list: seq<nat>, x: nat)
    requires forall j {:trigger list[j]} :: 0 <= j < |list| ==> list[j] == x
    ensures NoDup(list) && list != [] ==> list == [x]
  {
    if |list| > 1 { assert list[0] == list[1]; }
  }

  /** When nothing is live any more the pool is one block again, whatever the order of
      the releases was, and all of it but two headers is available. */
  lemma NothingLiveIsInitial(s: State, p: nat)
    requires WellFormed(s, p)
    ensures (forall i {:trigger s.blocks[i]} :: 0 <= i < |s.blocks| ==> !s.blocks[i].used)
            ==> s.blocks == Initial(p).blocks && s.free == Initial(p).free && s.avail == Initial(p).avail
  {
    AllFreeIsWhole(s.blocks, HEADER, START, p);
    SumsOne(Initial(p).blocks[0], HEADER);
    if forall i {:trigger s.blocks[i]} :: 0 <= i < |s.blocks| ==> !s.blocks[i].used {
      assert s.blocks[0].off in s.free;
      forall j | 0 <= j < |s.free|
        ensures s.free[j] == START
      {
        assert s.free[j] in s.free;
      }
      OnlyOne(s.free, START);
    }
  }
}
