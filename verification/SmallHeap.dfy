/** rt-thread/src/mem.c: the heap itself. Memory is one array of 32-bit words; the
    three header words of each block lie in the same array as the user data, so
    every header update is a write that could damage a payload. */
module SmallHeap {
  import opened Common
  import opened Memory
  import opened Tiling
  import opened SmallHeapSpec
  import opened SmallHeapSearch

  const FREE_WORD: int := 0x1ea0       // magic in the low half, used flag in the high half
  const USED_WORD: int := 0x1_1ea0

  predicate UsedFlag(word: int) { word / 0x1_0000 != 0 }

  function FlagWord(used: bool): int { if used then USED_WORD else FREE_WORD }

  // ---------------------------------------------------------------- the memory layout

  ghost predicate HeaderAt(w: seq<int>, bs: seq<Block>, i: nat, hi: nat)
    requires i < |bs|
  {
    var p := bs[i].off;
    && p + 2 < |w|
    && w[p] == FlagWord(bs[i].used)
    && w[p + 1] == NextOff(bs, i, hi)
    && w[p + 2] == (if i == 0 then 0 else bs[i - 1].off)
  }

  ghost predicate Linked(w: seq<int>, bs: seq<Block>, hi: nat) {
    forall i {:trigger HeaderAt(w, bs, i, hi)} :: 0 <= i < |bs| ==> HeaderAt(w, bs, i, hi)
  }

  /** The header writes that cut a block at p in front of q. */
  function SplitWords(w: seq<int>, p: nat, q: nat, next: nat, hi: nat): (r: seq<int>)
    ensures |r| == |w|
    ensures forall k {:trigger r[k]} ::
        0 <= k < |w| && k !in {p, p + 1, q, q + 1, q + 2} && (k == next + 2 ==> next == hi) ==> r[k] == w[k]
  {
    var w1 := Put(Put(Put(Put(Put(w, q, FREE_WORD), q + 1, next), q + 2, p), p + 1, q), p, USED_WORD);
    if next != hi then Put(w1, next + 2, q) else w1
  }

  lemma SplitWordsAt(w: seq<int>, p: nat, q: nat, next: nat, hi: nat)
    requires p + HEADER <= q && q + HEADER <= next <= hi && hi + HEADER <= |w|
    ensures var r := SplitWords(w, p, q, next, hi);
      && r[p] == USED_WORD && r[p + 1] == q && r[p + 2] == w[p + 2]
      && r[q] == FREE_WORD && r[q + 1] == next && r[q + 2] == p
      && (next != hi ==> r[next + 2] == q)
  {
  }

  lemma SplitLinked(w: seq<int>, bs: seq<Block>, i: nat, n: nat, hi: nat)
    requires Tiled(bs, HEADER, 0, hi) && |w| == hi + HEADER && Linked(w, bs, hi)
    requires i < |bs| && n + HEADER <= bs[i].size
    ensures Linked(SplitWords(w, bs[i].off, bs[i].off + HEADER + n, NextOff(bs, i, hi), hi),
        Split(bs, i, n, HEADER), hi)
  {
    var r := Split(bs, i, n, HEADER);
    var w' := SplitWords(w, bs[i].off, bs[i].off + HEADER + n, NextOff(bs, i, hi), hi);
    EndBound(bs, HEADER, 0, hi, i);
    assert NextOff(bs, i, hi) == bs[i].off + HEADER + bs[i].size;
    SplitWordsAt(w, bs[i].off, bs[i].off + HEADER + n, NextOff(bs, i, hi), hi);
    hide SplitWords;
    forall k | 0 <= k < |r|
      ensures HeaderAt(w', r, k, hi)
    {
      if k < i {
        assert HeaderAt(w, bs, k, hi);
        Ordered(bs, HEADER, 0, hi, k, i);
      } else if k == i {
        assert HeaderAt(w, bs, i, hi);
      } else if k >= i + 2 {
        assert HeaderAt(w, bs, k - 1, hi);
        assert NextOff(r, k, hi) == NextOff(bs, k - 1, hi);
        EndBound(bs, HEADER, 0, hi, k - 1);
        Ordered(bs, HEADER, 0, hi, i, k - 1);
        if k > i + 2 { Ordered(bs, HEADER, 0, hi, i + 1, k - 1); }
      }
    }
  }

  lemma MarkLinked(w: seq<int>, bs: seq<Block>, i: nat, used: bool, hi: nat)
    requires Tiled(bs, HEADER, 0, hi) && |w| == hi + HEADER && Linked(w, bs, hi) && i < |bs|
    ensures Linked(Put(w, bs[i].off, FlagWord(used)), Mark(bs, i, used), hi)
  {
    var r, w' := Mark(bs, i, used), Put(w, bs[i].off, FlagWord(used));
    forall k | 0 <= k < |r|
      ensures HeaderAt(w', r, k, hi)
    {
      assert HeaderAt(w, bs, k, hi);
      if k < i { Ordered(bs, HEADER, 0, hi, k, i); }
      if i < k { Ordered(bs, HEADER, 0, hi, i, k); }
    }
  }

  lemma AbsorbLinked(w: seq<int>, bs: seq<Block>, i: nat, hi: nat)
    requires Tiled(bs, HEADER, 0, hi) && |w| == hi + HEADER && Linked(w, bs, hi) && i + 1 < |bs|
    ensures var n := NextOff(bs, i + 1, hi);
            Linked(Put(Put(w, bs[i].off + 1, n), n + 2, bs[i].off), Absorb(bs, i, HEADER), hi)
  {
    var n := NextOff(bs, i + 1, hi);
    var r := Absorb(bs, i, HEADER);
    var w' := Put(Put(w, bs[i].off + 1, n), n + 2, bs[i].off);
    Ordered(bs, HEADER, 0, hi, i, i + 1);
    assert NextOff(bs, i + 1, hi) == bs[i + 1].off + HEADER + bs[i + 1].size;
    forall k | 0 <= k < |r|
      ensures HeaderAt(w', r, k, hi)
    {
      if k <= i {
        assert HeaderAt(w, bs, k, hi);
        if k < i { Ordered(bs, HEADER, 0, hi, k, i); }
      } else {
        assert HeaderAt(w, bs, k + 1, hi);
        assert NextOff(r, k, hi) == NextOff(bs, k + 1, hi);
        EndBound(bs, HEADER, 0, hi, k + 1);
        Ordered(bs, HEADER, 0, hi, i, k + 1);
        if k > i + 1 { Ordered(bs, HEADER, 0, hi, i + 2, k + 1); }
      }
    }
  }

  /** A write inside the data area of a used block touches no header. */
  lemma OverlayLinked(w: seq<int>, bs: seq<Block>, i: nat, a: nat, xs: seq<int>, hi: nat)
    requires Tiled(bs, HEADER, 0, hi) && |w| == hi + HEADER && Linked(w, bs, hi)
    requires i < |bs| && bs[i].off + HEADER <= a && a + |xs| <= bs[i].off + HEADER + bs[i].size <= |w|
    ensures Linked(Overlay(w, a, xs), bs, hi)
  {
    var w' := Overlay(w, a, xs);
    forall j | 0 <= j < |bs|
      ensures HeaderAt(w', bs, j, hi)
    {
      assert HeaderAt(w, bs, j, hi);
      if j < i { Ordered(bs, HEADER, 0, hi, j, i); }
      if i < j { Ordered(bs, HEADER, 0, hi, i, j); }
    }
  }

  /** All writes that cut a block go to header words of the result. */
  lemma SplitKept(w: seq<int>, bs: seq<Block>, i: nat, n: nat, hi: nat)
    requires Tiled(bs, HEADER, 0, hi) && i < |bs| && n + HEADER <= bs[i].size
    ensures Kept(w, SplitWords(w, bs[i].off, bs[i].off + HEADER + n, NextOff(bs, i, hi), hi), bs,
        Split(bs, i, n, HEADER), HEADER)
  {
    var r, p, q, next := Split(bs, i, n, HEADER), bs[i].off, bs[i].off + HEADER + n, NextOff(bs, i, hi);
    var w' := SplitWords(w, p, q, next, hi);
    SplitKeeps(bs, i, n, HEADER, 0, hi);
    forall k | 0 <= k < |w| && UserWord(bs, HEADER, k) && UserWord(r, HEADER, k)
      ensures w'[k] == w[k]
    {
      if k in {p, p + 1} { NotUser(r, HEADER, 0, hi, i, k); }
      else if k in {q, q + 1, q + 2} { NotUser(r, HEADER, 0, hi, i + 1, k); }
      else if k == next + 2 { NotUser(r, HEADER, 0, hi, i + 2, k); }
    }
  }

  /** Both link updates of a merge go to header words, or to heap_end. */
  lemma AbsorbKept(w: seq<int>, bs: seq<Block>, i: nat, hi: nat)
    requires Tiled(bs, HEADER, 0, hi) && i + 1 < |bs|
    ensures var n := NextOff(bs, i + 1, hi);
            Kept(w, Put(Put(w, bs[i].off + 1, n), n + 2, bs[i].off), bs, bs, HEADER)
  {
    NotUser(bs, HEADER, 0, hi, i, bs[i].off + 1);
    NotUser(bs, HEADER, 0, hi, i + 2, NextOff(bs, i + 1, hi) + 2);
  }

  lemma KeptSameUser(w: seq<int>, w1: seq<int>, w2: seq<int>, b0: seq<Block>, b1: seq<Block>)
    requires Kept(w, w1, b0, b0, HEADER) && Kept(w1, w2, b1, b1, HEADER)
    requires forall k {:trigger UserWord(b0, HEADER, k)} :: UserWord(b0, HEADER, k) ==> UserWord(b1, HEADER, k)
    ensures Kept(w, w2, b0, b0, HEADER)
  {
  }

  /** A used block is cut and the remainder merged. */
  lemma KeptThroughShrink(w: seq<int>, w1: seq<int>, w2: seq<int>, b0: seq<Block>, i: nat, n: nat)
    requires i < |b0| && b0[i].used && n + HEADER <= b0[i].size
    requires var b1 := Split(b0, i, n, HEADER); Kept(w, w1, b0, b1, HEADER) && Kept(w1, w2, b1, b1, HEADER)
    ensures Kept(w, w2, b0, Coalesce(Split(b0, i, n, HEADER), i + 1, HEADER), HEADER)
    ensures Slice(w2, b0[i].off + HEADER, n) == Slice(w, b0[i].off + HEADER, n)
  {
    var b1 := Split(b0, i, n, HEADER);
    forall k | UserWord(Coalesce(b1, i + 1, HEADER), HEADER, k)
      ensures UserWord(b1, HEADER, k)
    {
      CoalesceUser(b1, HEADER, i + 1, k);
    }
    forall k | b0[i].off + HEADER <= k < b0[i].off + HEADER + n
      ensures UserWord(b0, HEADER, k) && UserWord(b1, HEADER, k)
    {
      assert InData(b0[i], HEADER, k) && InData(b1[i], HEADER, k);
    }
  }

  // ---------------------------------------------------------------- the heap object

  /** rt_system_heap_init: no heap for a range that does not hold two headers, nor for one
      from address 0 on that holds nothing else. */
  method HeapInit(begin: nat, end: nat) returns (h: Heap?)
    requires begin < WORD_RANGE && end < WORD_RANGE
    ensures h == null <==> UsableWords(begin, end) < 0 || end / 4 <= 2 * HEADER
    ensures h != null ==> fresh(h) && h.Valid() && h.memSize == UsableWords(begin, end) && h.Abs() == Initial(h.memSize)
  {
    var beginAlign, endAlign := 4 * AlignWords(begin), end - end % 4;
    if endAlign > 8 * HEADER && endAlign - 8 * HEADER >= beginAlign {
      h := new Heap((endAlign - beginAlign - 8 * HEADER) / 4);
    } else {
      h := null;
    }
  }

  class Heap {
    const memory: array<int>          // heap_ptr
    const memSize: nat                // mem_size_aligned
    var lfree: nat
    var usedMem: nat
    var maxMem: nat
    ghost var blocks: seq<Block>

    ghost function Abs(): State
      reads this
    {
      State(blocks, lfree, usedMem, maxMem)
    }

    /** The header words describe `blocks`, and heap_end closes the list. */
    ghost predicate Shape()
      reads this, memory
    {
      && memory.Length == memSize + 2 * HEADER
      && Tiled(blocks, HEADER, 0, memSize + HEADER)
      && Linked(memory[..], blocks, memSize + HEADER)
      && memory[memSize + HEADER] == USED_WORD
      && memory[memSize + HEADER + 1] == memSize + HEADER
    }

    /** A heap with less than the least allocation never has anything to give. */
    ghost predicate Valid()
      reads this, memory
    {
      && Shape() && 4 * (memSize + 2 * HEADER) <= WORD_RANGE
      && if memSize >= MIN_DATA then WellFormed(Abs(), memSize) else Abs() == Initial(memSize)
    }

    lemma InUse(i: nat)
      requires Valid() && i < |blocks| && blocks[i].used
      ensures memSize >= MIN_DATA && WellFormed(Abs(), memSize)
    {
    }

    /** rt_system_heap_init on a region whose usable size is m words. */
    constructor (m: nat)
      requires 4 * (m + 2 * HEADER) <= WORD_RANGE
      ensures Valid() && memSize == m && Abs() == Initial(m) && fresh(memory)
    {
      memSize := m;
      memory := new int[m + 2 * HEADER];
      lfree, usedMem, maxMem := 0, 0, 0;
      blocks := [Block(0, m, false)];
      new;
      memory[0] := FREE_WORD;
      memory[1] := m + HEADER;
      memory[2] := 0;
      var end := memory[1];
      memory[end] := USED_WORD;
      memory[end + 1] := m + HEADER;
      memory[end + 2] := m + HEADER;
      assert HeaderAt(memory[..], blocks, 0, m + HEADER);
      assert blocks[..0] == [];
    }

    /** Header fields of block k, as the code reads them. */
    lemma Reading(k: nat)
      requires Shape() && k < |blocks|
      ensures var p := blocks[k].off;
        && p + HEADER + blocks[k].size <= memSize + HEADER
        && memory[p] == FlagWord(blocks[k].used)
        && memory[p + 1] == p + HEADER + blocks[k].size == NextOff(blocks, k, memSize + HEADER)
        && memory[p + 2] == (if k == 0 then 0 else blocks[k - 1].off)
    {
      assert HeaderAt(memory[..], blocks, k, memSize + HEADER);
      EndBound(blocks, HEADER, 0, memSize + HEADER, k);
      assert NextOff(blocks, k, memSize + HEADER) == blocks[k].off + HEADER + blocks[k].size;
    }

    /** The two link updates both halves of plug_holes make: block a, at index i,
        swallows the block b behind it. */
    method Join(a: nat, b: nat, ghost i: nat)
      requires Shape() && i + 1 < |blocks| && blocks[i].off == a && blocks[i + 1].off == b
      requires !blocks[i].used && !blocks[i + 1].used
      modifies this`blocks, memory
      ensures Shape() && blocks == Absorb(old(blocks), i, HEADER)
      ensures Kept(old(memory[..]), memory[..], old(blocks), old(blocks), HEADER)
    {
      ghost var hi, w := memSize + HEADER, memory[..];
      ghost var n := NextOff(blocks, i + 1, hi);
      Reading(i);
      Reading(i + 1);
      if i + 2 < |blocks| { Reading(i + 2); }
      AbsorbLinked(w, blocks, i, hi);
      AbsorbKeeps(blocks, i, HEADER, 0, hi);
      AbsorbKept(w, blocks, i, hi);
      memory[a + 1] := memory[b + 1];
      memory[memory[b + 1] + 2] := a;
      assert memory[..] == Put(Put(w, a + 1, n), n + 2, a);
      blocks := Absorb(blocks, i, HEADER);
    }

    /** plug_holes, forward: the block behind, if it is free, is swallowed. */
    method PlugForward(mem: nat, ghost i: nat)
      requires Shape() && i < |blocks| && blocks[i].off == mem && !blocks[i].used
      modifies this`lfree, this`blocks, memory
      ensures Shape() && blocks == PlugNext(old(blocks), i, HEADER)
      ensures lfree == if i + 1 < |old(blocks)| && !old(blocks)[i + 1].used && old(lfree) == old(blocks)[i + 1].off
          then mem else old(lfree)
      ensures Kept(old(memory[..]), memory[..], old(blocks), old(blocks), HEADER)
    {
      hide Kept, Linked, Tiled;
      KeptRefl(memory[..], blocks, HEADER);
      Reading(i);
      if i + 1 < |blocks| { Reading(i + 1); }
      var nmem := memory[mem + 1];
      if mem != nmem && !UsedFlag(memory[nmem]) && nmem != memSize + HEADER {
        if lfree == nmem { lfree := mem; }
        Join(mem, nmem, i);
      }
    }

    /** plug_holes, backward: the block in front, if it is free, swallows this one. */
    method PlugBackward(mem: nat, ghost i: nat)
      requires Shape() && i < |blocks| && blocks[i].off == mem && !blocks[i].used
      modifies this`lfree, this`blocks, memory
      ensures Shape() && blocks == PlugPrev(old(blocks), i, HEADER)
      ensures lfree == if i > 0 && !old(blocks)[i - 1].used && old(lfree) == mem then old(blocks)[i - 1].off
          else old(lfree)
      ensures Kept(old(memory[..]), memory[..], old(blocks), old(blocks), HEADER)
    {
      hide Kept, Linked;
      KeptRefl(memory[..], blocks, HEADER);
      Reading(i);
      if i > 0 { Reading(i - 1); }
      var pmem := memory[mem + 2];
      if pmem != mem && !UsedFlag(memory[pmem]) {
        if lfree == mem { lfree := pmem; }
        Join(pmem, mem, i - 1);
      }
    }

    /** plug_holes. */
    method PlugHoles(mem: nat, ghost i: nat)
      requires Shape() && i < |blocks| && blocks[i].off == mem && !blocks[i].used
      modifies this`lfree, this`blocks, memory
      ensures Shape()
      ensures blocks == Coalesce(old(blocks), i, HEADER)
      ensures lfree == PlugHint(old(blocks), old(lfree), i)
      ensures Kept(old(memory[..]), memory[..], old(blocks), old(blocks), HEADER)
    {
      hide Kept, Linked, Tiled;
      ghost var b0, w0 := blocks, memory[..];
      PlugForward(mem, i);
      ghost var b1, w1 := blocks, memory[..];
      PlugBackward(mem, i);
      forall k | UserWord(b0, HEADER, k)
        ensures UserWord(b1, HEADER, k)
      {
        if b1 != b0 { AbsorbUser(b0, HEADER, i, k); }
      }
      KeptSameUser(w0, w1, memory[..], b0, b1);
    }

    lemma CanSearch()
      requires Valid()
      ensures Searchable(Abs(), memSize)
    {
    }

    /** rt_malloc, on every request its search loop comes back from. */
    method Malloc(bytes: nat) returns (r: Option<nat>)
      requires Valid() && bytes < WORD_RANGE && Returns(Abs(), bytes, memSize)
      modifies this, memory
      ensures Valid() && Abs() == MallocSpec(old(Abs()), bytes, memSize).0
          && r == MallocSpec(old(Abs()), bytes, memSize).1
      ensures Kept(old(memory[..]), memory[..], old(blocks), blocks, HEADER)
    {
      CanSearch();
      MallocReturnsIff(Abs(), bytes, memSize);
      if bytes == 0 { return None; }
      var size := AlignWords(bytes);
      if size > memSize { return None; }
      if size < MIN_DATA { size := MIN_DATA; }
      var ptr, k := Search(size);
      if ptr.None? { return None; }
      TakeKeeps(Abs(), size, memSize);
      Carve(ptr.value, size, k);
      r := Some(ptr.value + HEADER);
    }

    /** The search loop of rt_malloc. */
    method Search(size: nat) returns (found: Option<nat>, ghost k: nat)
      requires Valid() && MIN_DATA <= size <= memSize
      ensures k == Pick(Abs(), size, memSize)
      ensures found == if k == |blocks| then None else Some(blocks[k].off)
    {
      ghost var hi := memSize + HEADER;
      k := IndexFrom(blocks, lfree, 0);
      HintIndex(Abs(), memSize);
      var ptr := lfree;
      assert (4 * memSize - 4 * size) % WORD_RANGE == 4 * memSize - 4 * size;
      while Guard(ptr, size, memSize)
        invariant k <= |blocks| && ptr == OffAt(blocks, k, hi)
        invariant Pick(Abs(), size, memSize) == Find(blocks, k, size, memSize)
        decreases |blocks| - k
      {
        Reading(k);
        if !UsedFlag(memory[ptr]) && memory[ptr + 1] - (ptr + HEADER) >= size {
          return Some(ptr), k;
        }
        ptr := memory[ptr + 1];
        k := k + 1;
      }
      PastTheGuard(blocks, k, size, memSize);
      found, k := None, |blocks|;
    }

    /** The body of the search loop once block k has been found. */
    method Carve(ptr: nat, size: nat, ghost k: nat)
      requires Shape() && k < |blocks| && blocks[k].off == ptr && !blocks[k].used && blocks[k].size >= size
      modifies this, memory
      ensures Shape() && Abs() == TakeAt(old(Abs()), k, size, memSize)
      ensures Kept(old(memory[..]), memory[..], old(blocks), blocks, HEADER)
    {
      Reading(k);
      var next := memory[ptr + 1];
      if next - (ptr + HEADER) >= size + HEADER + MIN_DATA {
        Cut(ptr, size, k);
        usedMem := usedMem + size + HEADER;
      } else {
        SetUsed(ptr, true, k);
        usedMem := usedMem + (next - ptr);
      }
      if maxMem < usedMem { maxMem := usedMem; }
      if ptr == lfree { AdvanceHint(k); }
    }

    method Write(a: nat, v: int)
      requires a < memory.Length
      modifies memory
      ensures memory[..] == Put(old(memory[..]), a, v)
    {
      memory[a] := v;
    }

    method CutWrites(ptr: nat, ptr2: nat, next: nat)
      requires ptr2 + 2 < memory.Length == memSize + 2 * HEADER && ptr < ptr2 && next <= memSize + HEADER
      modifies memory
      ensures memory[..] == SplitWords(old(memory[..]), ptr, ptr2, next, memSize + HEADER)
    {
      Write(ptr2, FREE_WORD);
      Write(ptr2 + 1, next);
      Write(ptr2 + 2, ptr);
      Write(ptr + 1, ptr2);
      Write(ptr, USED_WORD);
      if next != memSize + HEADER { Write(next + 2, ptr2); }
    }

    /** Split block k behind n words: the free remainder gets a header of its own. */
    method Cut(ptr: nat, n: nat, ghost k: nat)
      requires Shape() && k < |blocks| && blocks[k].off == ptr && n + HEADER <= blocks[k].size
      modifies this`blocks, memory
      ensures Shape() && blocks == Split(old(blocks), k, n, HEADER)
      ensures Kept(old(memory[..]), memory[..], old(blocks), blocks, HEADER)
    {
      hide Kept, UserWord, Tiled, Linked;
      ghost var hi, w := memSize + HEADER, memory[..];
      Reading(k);
      if k + 1 < |blocks| { Reading(k + 1); }
      SplitLinked(w, blocks, k, n, hi);
      SplitKept(w, blocks, k, n, hi);
      SplitKeeps(blocks, k, n, HEADER, 0, hi);
      var ptr2, next := ptr + HEADER + n, memory[ptr + 1];
      CutWrites(ptr, ptr2, next);
      blocks := Split(blocks, k, n, HEADER);
    }

    method SetUsed(ptr: nat, used: bool, ghost k: nat)
      requires Shape() && k < |blocks| && blocks[k].off == ptr
      modifies this`blocks, memory
      ensures Shape() && blocks == Mark(old(blocks), k, used)
      ensures Kept(old(memory[..]), memory[..], old(blocks), blocks, HEADER)
    {
      ghost var hi, w := memSize + HEADER, memory[..];
      Reading(k);
      MarkLinked(w, blocks, k, used, hi);
      MarkKeeps(blocks, k, used, HEADER, 0, hi);
      NotUser(blocks, HEADER, 0, hi, k, ptr);
      memory[ptr] := FlagWord(used);
      assert memory[..] == Put(w, ptr, FlagWord(used));
      blocks := Mark(blocks, k, used);
    }

    /** Move lfree on to the next free block, from block k. */
    method AdvanceHint(ghost k: nat)
      requires Shape() && k < |blocks| && blocks[k].off == lfree
      modifies this`lfree
      ensures lfree == OffAt(blocks, FirstFree(blocks, k), memSize + HEADER)
    {
      ghost var j := k;
      Reading(k);
      while UsedFlag(memory[lfree]) && lfree != memSize + HEADER
        invariant k <= j <= |blocks| && lfree == OffAt(blocks, j, memSize + HEADER) && lfree <= memSize + HEADER
        invariant j < |blocks| ==> memory[lfree] == FlagWord(blocks[j].used)
        invariant FirstFree(blocks, k) == FirstFree(blocks, j) && lfree <= memSize + HEADER
        decreases |blocks| - j
      {
        Reading(j);
        lfree := memory[lfree + 1];
        j := j + 1;
        if j < |blocks| { Reading(j); }
      }
      if j < |blocks| { Reading(j); }
    }

    /** rt_free; the source asserts that p is a live allocation, and ignores an address
        behind the heap. */
    method Free(p: Option<nat>)
      requires Valid() && (p.Some? ==> (Live(Abs(), p.value) <==> p.value < memSize + HEADER))
      modifies this, memory
      ensures Valid() && Abs() == FreeSpec(old(Abs()), p)
      ensures Kept(old(memory[..]), memory[..], old(blocks), blocks, HEADER)
      ensures forall k :: UserWord(blocks, HEADER, k) ==> UserWord(old(blocks), HEADER, k)
    {
      if p.None? || p.value >= memSize + HEADER { return; }
      ghost var i := BlockOf(Abs(), p.value);
      InUse(i);
      ReleaseKeeps(Abs(), i, memSize);
      ReleaseBlock(p.value - HEADER, i);
    }

    method ReleaseBlock(mem: nat, ghost i: nat)
      requires Shape() && i < |blocks| && blocks[i].off == mem && usedMem >= HEADER + blocks[i].size
      modifies this, memory
      ensures Shape() && Abs() == Release(old(Abs()), i)
      ensures Kept(old(memory[..]), memory[..], old(blocks), blocks, HEADER)
      ensures forall k :: UserWord(blocks, HEADER, k) ==> UserWord(old(blocks), HEADER, k)
    {
      ghost var b0, w0 := blocks, memory[..];
      SetUsed(mem, false, i);
      if mem < lfree { lfree := mem; }
      ghost var b1, w1 := blocks, memory[..];
      Reading(i);
      usedMem := usedMem - (memory[mem + 1] - mem);
      PlugHoles(mem, i);
      forall k | UserWord(blocks, HEADER, k)
        ensures UserWord(b0, HEADER, k) && UserWord(b1, HEADER, k)
      {
        CoalesceUser(b1, HEADER, i, k);
        MarkUser(b0, HEADER, i, false, k);
      }
    }

    /** User code writes xs into a live data area, d words from its start. */
    method Store(p: nat, d: nat, xs: seq<int>, ghost i: nat)
      requires Valid() && i < |blocks| && blocks[i].off + HEADER == p && blocks[i].used && d + |xs| <= blocks[i].size
      modifies memory
      ensures Valid() && p + d + |xs| <= memory.Length && memory[..] == Overlay(old(memory[..]), p + d, xs)
    {
      ghost var w := memory[..];
      InUse(i);
      Reading(i);
      OverlayLinked(w, blocks, i, p + d, xs, memSize + HEADER);
      forall k | 0 <= k < |xs| { memory[p + d + k] := xs[k]; }
      assert memory[..] == Overlay(w, p + d, xs);
    }

    /** rt_realloc. The source looks at the header in front of p unless p is NULL or
        lies behind the heap, so p must otherwise be live. */
    method Realloc(p: Option<nat>, bytes: nat) returns (r: Option<nat>)
      requires Valid() && bytes < WORD_RANGE
      requires p.None? && AlignWords(bytes) > 0 ==> Returns(Abs(), bytes, memSize)
      requires p.Some? ==> (Live(Abs(), p.value) <==> p.value < memSize + HEADER)
      modifies this, memory
      ensures Valid() && Abs() == ReallocSpec(old(Abs()), p, bytes, memSize).0
          && r == ReallocSpec(old(Abs()), p, bytes, memSize).1
      ensures Kept(old(memory[..]), memory[..], old(blocks), blocks, HEADER)
      ensures r.Some? && p.Some? && p.value < memSize + HEADER ==>
                var n := Min(AlignWords(bytes), old(blocks)[BlockOf(old(Abs()), p.value)].size);
                Slice(memory[..], r.value, n) == Slice(old(memory[..]), p.value, n)
    {
      hide Kept, UserWord, Slice, WellFormed, Take, FreeSpec, MoveSpec, Shrink;
      var newsize := AlignWords(bytes);
      if newsize > memSize { KeptRefl(memory[..], blocks, HEADER); return None; }
      if newsize == 0 {
        Free(p);
        return None;
      }
      if p.None? {
        CanSearch();
        MallocReturnsIff(Abs(), bytes, memSize);
        MallocWords(Abs(), newsize, memSize);
        MallocReturnsIff(Abs(), 4 * newsize, memSize);
        r := Malloc(4 * newsize);
        return;
      }
      if p.value >= memSize + HEADER { KeptRefl(memory[..], blocks, HEADER); return p; }
      r := Resize(p.value, newsize, BlockOf(Abs(), p.value));
    }

    /** rt_realloc for a live p and a nonzero size. */
    method Resize(p: nat, n: nat, ghost i: nat) returns (r: Option<nat>)
      requires Valid() && 0 < n <= memSize && p < memSize + HEADER
      requires i < |blocks| && blocks[i].off + HEADER == p && blocks[i].used
      modifies this, memory
      ensures Valid() && (Abs(), r) == (
                var s, size := old(Abs()), old(blocks)[i].size;
                if size == n then (s, Some(p))
                else if Shrinks(size, n) && s.usedMem >= size - n then (Shrink(s, i, n), Some(p))
                else MoveSpec(s, p, n, memSize))
      ensures Kept(old(memory[..]), memory[..], old(blocks), blocks, HEADER)
      ensures r.Some? ==>
          Slice(memory[..], r.value, Min(n, old(blocks)[i].size)) ==
          Slice(old(memory[..]), p, Min(n, old(blocks)[i].size))
    {
      hide Kept, UserWord, Slice, WellFormed, Take, FreeSpec, MoveSpec, Shrink;
      InUse(i);
      Reading(i);
      var ptr := p - HEADER;
      var size := memory[ptr + 1] - ptr - HEADER;
      if size == n { KeptRefl(memory[..], blocks, HEADER); return Some(p); }
      if n + HEADER + MIN_DATA < size {
        ShrinkKeeps(Abs(), i, n, memSize);
        ShrinkBlock(ptr, n, size, i);
        return Some(p);
      }
      r := MoveBlock(p, n, size, i);
    }

    method ShrinkBlock(ptr: nat, n: nat, size: nat, ghost i: nat)
      requires Shape() && i < |blocks| && blocks[i] == Block(ptr, size, true)
      requires n + HEADER <= size && usedMem >= size - n
      modifies this, memory
      ensures Shape() && Abs() == Shrink(old(Abs()), i, n)
      ensures Kept(old(memory[..]), memory[..], old(blocks), blocks, HEADER)
      ensures Slice(memory[..], ptr + HEADER, n) == Slice(old(memory[..]), ptr + HEADER, n)
    {
      hide Kept, UserWord, Slice, Linked, Tiled, Coalesce, PlugHint;
      ghost var b0, w0 := blocks, memory[..];
      Reading(i);
      usedMem := usedMem - (size - n);
      Cut(ptr, n, i);
      ghost var b1, w1 := blocks, memory[..];
      PlugHoles(ptr + HEADER + n, i + 1);
      KeptThroughShrink(w0, w1, memory[..], b0, i, n);
    }

    /** The tail of rt_realloc: a new block, a copy, and the old block freed. */
    method MoveBlock(p: nat, n: nat, size: nat, ghost i: nat) returns (r: Option<nat>)
      requires Valid() && 0 < n <= memSize && p < memSize + HEADER
      requires i < |blocks| && blocks[i].off + HEADER == p && blocks[i].used && blocks[i].size == size
      modifies this, memory
      ensures Valid() && Abs() == MoveSpec(old(Abs()), p, n, memSize).0 && r == MoveSpec(old(Abs()), p, n, memSize).1
      ensures Kept(old(memory[..]), memory[..], old(blocks), blocks, HEADER)
      ensures r.Some? ==> Slice(memory[..], r.value, Min(n, size)) == Slice(old(memory[..]), p, Min(n, size))
    {
      hide Kept, UserWord, Slice, WellFormed, FreeSpec, Take;
      ghost var s0, w0 := Abs(), memory[..];
      InUse(i);
      CanSearch();
      MallocWords(s0, n, memSize);
      MallocReturnsIff(s0, 4 * n, memSize);
      r := Malloc(4 * n);
      if r.Some? {
        ghost var j, k := TakeLayout(s0, i, Max(n, MIN_DATA), memSize);
        ghost var b1, w1 := blocks, memory[..];
        Reading(k);
        var c := if size < n then size else n;
        Relocate(p, r.value, c, k, j);
        SliceKept(w0, w1, s0.blocks, b1, HEADER, i, k, c);
        KeptByMove(w0, w1, memory[..], s0.blocks, j, b1, blocks, HEADER, 0, memSize + HEADER, c);
      }
    }

    /** Copy c words from the block at p to the block at q, then free p. */
    method Relocate(p: nat, q: nat, c: nat, ghost i: nat, ghost j: nat)
      requires Valid() && i < |blocks| && j < |blocks| && i != j && blocks[i].used && blocks[j].used
      requires blocks[i].off + HEADER == p < memSize + HEADER && blocks[j].off + HEADER == q && c <= blocks[i].size
          && c <= blocks[j].size
      modifies this, memory
      ensures Valid() && Abs() == FreeSpec(old(Abs()), Some(p))
      ensures Moved(old(memory[..]), memory[..], old(blocks), blocks, HEADER, q, c)
      ensures Slice(memory[..], q, c) == Slice(old(memory[..]), p, c)
    {
      hide Kept, UserWord, WellFormed, Linked, Tiled, FreeSpec, Coalesce, Mark, Moved;
      ghost var s0, w0 := Abs(), memory[..];
      InUse(i);
      Reading(i);
      Reading(j);
      FreeIs(s0, i, memSize);
      Store(q, 0, memory[p..p + c], j);
      ghost var w1 := memory[..];
      Free(Some(p));
      MovedByRelease(w0, w1, memory[..], s0.blocks, i, j, blocks, HEADER, p, q, c);
    }
  }
}
