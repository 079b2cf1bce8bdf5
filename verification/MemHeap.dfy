/** rt-thread/src/memheap.c: the heap itself. */
module MemHeap {
  import opened Common
  import opened Lists
  import opened Memory
  import opened Tiling
  import opened MemHeapSpec
  import opened MemHeapTheorems
  import opened MemHeapLayout

  class Heap {
    const memory: array<int>
    const poolSize: nat               // pool_size, in words
    var avail: nat                    // available_size
    var maxUsed: nat                  // max_used_size
    ghost var blocks: seq<Block>
    ghost var free: seq<nat>

    ghost function Abs(): State
      reads this
    {
      State(blocks, free, avail, maxUsed)
    }

    /** The words describe both lists; all of the free list's nodes are headers. */
    ghost predicate Shape(heads: set<nat>)
      reads this, memory
    {
      && memory.Length == poolSize + HEADER
      && Tiled(blocks, HEADER, START, poolSize)
      && Chain(memory[..], blocks, poolSize)
      && Ring(memory[..], free) && RingIn(free, heads)
      && Apart(heads) && InMemory(heads, memory[..]) && Heads(blocks, poolSize) <= heads
    }

    ghost predicate Valid()
      reads this, memory
    {
      Shape(Heads(blocks, poolSize)) && WellFormed(Abs(), poolSize)
    }

    method Write(a: int, v: int)
      requires 0 <= a < memory.Length
      modifies memory
      ensures memory[..] == Put(old(memory[..]), a, v)
    {
      memory[a] := v;
    }

    /** Header fields of block k, as the code reads them. */
    lemma Reading(k: nat)
      requires memory.Length == poolSize + HEADER && Tiled(blocks, HEADER, START, poolSize)
          && Chain(memory[..], blocks, poolSize) && k < |blocks|
      ensures var h := blocks[k].off;
        && START <= h && h + HEADER + blocks[k].size <= poolSize
        && memory[h] == FlagWord(blocks[k].used)
        && memory[h + 2] == h + HEADER + blocks[k].size == NextOff(blocks, k, poolSize)
        && memory[h + 3] == PrevOff(blocks, k, poolSize)
        && h in Heads(blocks, poolSize)
      ensures memory[poolSize] == USED_WORD
    {
      assert BlockAt(memory[..], blocks, k, poolSize);
      EndBound(blocks, HEADER, START, poolSize, k);
      assert NextOff(blocks, k, poolSize) == blocks[k].off + HEADER + blocks[k].size;
    }

    /** rt_memheap_init on a pool of size words. */
    constructor (size: nat)
      requires size >= 2 * HEADER
      ensures Valid() && poolSize == size && Abs() == Initial(size) && fresh(memory)
    {
      poolSize := size;
      memory := new int[size + HEADER];
      avail, maxUsed := size - 2 * HEADER, 2 * HEADER;
      blocks, free := [Block(START, size - 2 * HEADER, false)], [];
      new;
      hide Ring, Chain, RingIn, WellFormed;
      Format();
      HeadsApart(blocks, poolSize);
      assert blocks[0].off in Heads(blocks, poolSize);
      Push(START, Heads(blocks, poolSize));
      InitialIs(size);
    }

    lemma InitialIs(p: nat)
      requires p >= 2 * HEADER
      ensures WellFormed(Initial(p), p)
    {
      var b := Initial(p).blocks[0];
      SumsOne(b, HEADER);
      assert At([b], START) == 0;
    }

    /** The free-list header, the first big block and the tail block. */
    method Format()
      requires memory.Length == poolSize + HEADER && poolSize >= 2 * HEADER
      requires avail == poolSize - 2 * HEADER && blocks == Initial(poolSize).blocks && free == []
      modifies memory
      ensures Chain(memory[..], blocks, poolSize) && Ring(memory[..], free)
    {
      FillHeader(0, false, NULL, NULL, 0, 0);
      var tail := START + avail + HEADER;
      FillHeader(START, false, tail, tail, START, START);
      FillHeader(tail, true, START, START, NULL, NULL);
      assert BlockAt(memory[..], blocks, 0, poolSize);
      assert Edge(memory[..], free, 0);
    }

    method FillHeader(h: nat, used: bool, next: int, prev: int, nextFree: int, prevFree: int)
      requires h + HEADER <= memory.Length
      modifies memory
      ensures LinkAt(memory[..], h, used, next, prev) && memory[h + 4] == nextFree && memory[h + 5] == prevFree
      ensures forall k {:trigger memory[k]} ::
          0 <= k < memory.Length && !(h <= k < h + HEADER) ==> memory[k] == old(memory[k])
    {
      memory[h] := FlagWord(used);
      memory[h + 1] := HEAP;
      memory[h + 2] := next;
      memory[h + 3] := prev;
      memory[h + 4] := nextFree;
      memory[h + 5] := prevFree;
    }

    /** Take a block off the free list. */
    method Unlink(x: nat, ghost heads: set<nat>)
      requires Shape(heads) && x in free
      modifies this`free, memory
      ensures Shape(heads) && free == Without(old(free), x) && Framed(old(memory[..]), memory[..], heads)
      ensures x + 5 < memory.Length && memory[..] == UnlinkWords(old(memory[..]), x)
    {
      hide Ring, Chain, Framed, AgreeLinks, Apart, Tiled, Heads, Without, RingIn;
      ghost var w, fl := memory[..], free;
      ghost var j :| 0 <= j < |fl| && fl[j] == x;
      UnlinkFrame(w, fl, j, heads);
      UnlinkRing(w, fl, j, heads);
      var next, prev := memory[x + 4], memory[x + 5];
      Write(next + 5, prev);
      Write(prev + 4, next);
      ChainFrame(w, memory[..], blocks, poolSize, heads);
      free := Without(fl, x);
      RingWithout(fl, x, heads);
    }

    /** Put a block behind the free-list header. */
    method Push(x: nat, ghost heads: set<nat>)
      requires Shape(heads) && x !in free && x in heads && x != 0
      modifies this`free, memory
      ensures Shape(heads) && free == [x] + old(free) && Framed(old(memory[..]), memory[..], heads)
    {
      hide Ring, Chain, Framed, AgreeLinks, Apart, Tiled, Heads, RingIn;
      ghost var w, fl := memory[..], free;
      PushFrame(w, fl, x, heads);
      PushRing(w, fl, x, heads);
      Write(x + 4, memory[4]);
      Write(x + 5, 0);
      PushReads(w, fl, x, heads);
      Write(memory[4] + 5, x);
      Write(4, x);
      ChainFrame(w, memory[..], blocks, poolSize, heads);
      free := [x] + fl;
    }

    method ClearLinks(x: nat, ghost heads: set<nat>)
      requires Shape(heads) && x !in free && x in heads && x != 0
      modifies memory
      ensures Shape(heads) && Framed(old(memory[..]), memory[..], heads)
    {
      hide Ring, Chain, Framed, AgreeLinks, Apart, Tiled, Heads, RingIn;
      ghost var w := memory[..];
      NullRing(w, free, x, heads);
      Write(x + 4, NULL);
      Write(x + 5, NULL);
      ChainFrame(w, memory[..], blocks, poolSize, heads);
    }

    /** Build a free header at h + HEADER + n behind the block at h. */
    method Cut(h: nat, n: nat, ghost i: nat) returns (x: nat)
      requires Shape(Heads(blocks, poolSize)) && i < |blocks| && blocks[i].off == h && n + HEADER <= blocks[i].size
      modifies this`blocks, memory
      ensures x == h + HEADER + n && x !in free && x != 0 && x in Heads(blocks, poolSize)
      ensures Shape(Heads(blocks, poolSize)) && blocks == CutBlocks(old(blocks), i, n)
      ensures Heads(old(blocks), poolSize) <= Heads(blocks, poolSize)
      ensures Framed(old(memory[..]), memory[..], Heads(blocks, poolSize))
    {
      hide Ring, Chain, Framed, AgreeFree, Apart, Heads, RingIn;
      ghost var w, bs, p := memory[..], blocks, poolSize;
      CutChain(w, bs, i, n, p);
      CutFrame(w, bs, i, n, p);
      x := h + HEADER + n;
      var next := memory[h + 2];
      Write(x, FREE_WORD);
      Write(x + 1, HEAP);
      Write(x + 3, h);
      Write(x + 2, next);
      Write(next + 3, x);
      Write(h + 2, x);
      RingFrame(w, memory[..], free, Heads(bs, p));
      CutShape(bs, i, n, p, free, w);
      blocks := CutBlocks(bs, i, n);
    }

    method SetUsed(h: nat, used: bool, ghost i: nat)
      requires Shape(Heads(blocks, poolSize)) && i < |blocks| && blocks[i].off == h
      modifies this`blocks, memory
      ensures Shape(Heads(blocks, poolSize)) && blocks == Mark(old(blocks), i, used)
      ensures Heads(blocks, poolSize) == Heads(old(blocks), poolSize)
          && Framed(old(memory[..]), memory[..], Heads(blocks, poolSize))
    {
      hide Ring, Chain, Framed, AgreeFree, Apart, Heads, RingIn;
      ghost var w := memory[..];
      MarkChain(w, blocks, i, used, poolSize);
      MarkKeeps(blocks, i, used, HEADER, START, poolSize);
      Write(h, FlagWord(used));
      RingFrame(w, memory[..], free, Heads(blocks, poolSize));
      blocks := Mark(blocks, i, used);
    }

    /** Block a, at index i, swallows the block b behind it. */
    method Merge(a: nat, b: nat, ghost i: nat, ghost heads: set<nat>)
      requires Shape(heads) && i + 1 < |blocks| && blocks[i].off == a && blocks[i + 1].off == b
      modifies this`blocks, memory
      ensures Shape(heads) && blocks == Absorb(old(blocks), i, HEADER) && Framed(old(memory[..]), memory[..], heads)
      ensures b + 5 < memory.Length && memory[..] == MergeWords(old(memory[..]), a, b)
    {
      hide Ring, Chain, Framed, AgreeFree, Apart, Heads, RingIn;
      ghost var w, bs := memory[..], blocks;
      MergeChain(w, bs, i, poolSize);
      MergeFrame(w, bs, i, poolSize, heads);
      AbsorbKeeps(bs, i, HEADER, START, poolSize);
      Reading(i);
      var next := memory[b + 2];
      Write(a + 2, next);
      Write(next + 3, a);
      RingFrame(w, memory[..], free, heads);
      blocks := Absorb(bs, i, HEADER);
    }

    /** rt_memheap_alloc. */
    method Alloc(bytes: nat) returns (r: Option<nat>)
      requires Valid() && bytes < WORD_RANGE
      modifies this, memory
      ensures Valid() && Abs() == AllocSpec(old(Abs()), bytes, poolSize).0
          && r == AllocSpec(old(Abs()), bytes, poolSize).1
      ensures Kept(old(memory[..]), memory[..], old(blocks), blocks, HEADER)
    {
      hide Kept, Listed, Ring, Chain, Tiled, TakeAt, Heads, Framed;
      var size := AlignWords(bytes);
      if size < MIN_ALLOC { size := MIN_ALLOC; }
      KeptRefl(memory[..], blocks, HEADER);
      if size >= avail { return None; }
      var header, k := Search(size);
      if header.None? { return None; }
      FoundIsFree(Abs(), k, poolSize);
      ghost var i := At(blocks, free[k]);
      TakeAtKeeps(Abs(), i, size, poolSize);
      ghost var b0, w0, heads := blocks, memory[..], Heads(blocks, poolSize);
      Carve(header.value, size, i);
      Settle(w0, b0, heads + Heads(blocks, poolSize), Heads(blocks, poolSize));
      r := Some(header.value + HEADER);
    }

    /** The search over the free list. */
    method Search(size: nat) returns (found: Option<nat>, ghost k: nat)
      requires Valid() && size > 0
      ensures k == FindFree(blocks, free, 0, size)
      ensures found == if k == |free| then None else Some(free[k])
    {
      hide Chain, Tiled, Apart, Heads;
      var freeSize: int := 0;
      k := 0;
      var header := memory[4];
      assert Edge(memory[..], free, 0);
      while header != 0 && freeSize < size
        invariant k <= |free| && header == Node(free, k)
        invariant FindFree(blocks, free, k, size) == FindFree(blocks, free, 0, size)
        invariant freeSize >= size ==> k < |free| && FitsAt(blocks, free[k], size)
        decreases |free| - k, size - freeSize
      {
        assert free[k] in free;
        Reading(At(blocks, free[k]));
        freeSize := memory[header + 2] - header - HEADER;
        if freeSize < size {
          assert Edge(memory[..], free, k + 1);
          header := memory[header + 4];
          k := k + 1;
        }
      }
      found := if freeSize >= size then Some(header) else None;
    }

    /** The body of rt_memheap_alloc once a block has been found. */
    method Carve(header: nat, size: nat, ghost i: nat)
      requires Valid() && i < |blocks| && blocks[i].off == header && !blocks[i].used && size <= blocks[i].size <= avail
      modifies this, memory
      ensures Shape(Heads(blocks, poolSize)) && Abs() == TakeAt(old(Abs()), i, size, poolSize)
      ensures Framed(old(memory[..]), memory[..], Heads(old(blocks), poolSize) + Heads(blocks, poolSize))
    {
      hide Kept, Ring, Chain, Tiled, Framed, Apart, Heads, RingIn, Coalesced;
      Reading(i);
      var freeSize := memory[header + 2] - header - HEADER;
      if freeSize >= size + HEADER + MIN_ALLOC {
        CutFree(header, size, i);
        avail := avail - size - HEADER;
      } else {
        TakeWhole(header, i);
        avail := avail - freeSize;
      }
      if poolSize - avail > maxUsed { maxUsed := poolSize - avail; }
    }

    method CutFree(header: nat, size: nat, ghost i: nat)
      requires Valid() && i < |blocks| && blocks[i].off == header && !blocks[i].used && size + HEADER <= blocks[i].size
      modifies this`blocks, this`free, memory
      ensures Shape(Heads(blocks, poolSize)) && blocks == Split(old(blocks), i, size, HEADER)
      ensures free == [header + HEADER + size] + Without(old(free), header)
      ensures Framed(old(memory[..]), memory[..], Heads(old(blocks), poolSize) + Heads(blocks, poolSize))
    {
      hide Kept, Ring, Chain, Tiled, Framed, Apart, Heads, RingIn, Coalesced, Without;
      ghost var w0, h0, f0, p := memory[..], Heads(blocks, poolSize), free, poolSize;
      var x := Cut(header, size, i);
      ghost var w1, h1 := memory[..], Heads(blocks, p);
      Reading(i);
      Unlink(header, h1);
      ghost var w2 := memory[..];
      WithoutMembers(f0, header);
      ClearLinks(header, h1);
      ghost var w3 := memory[..];
      Push(x, h1);
      ghost var w4 := memory[..];
      SetUsed(header, true, i);
      AgreeJoin(w0, w1, w2, h1);
      AgreeJoin(w0, w2, w3, h1);
      AgreeJoin(w0, w3, w4, h1);
      AgreeJoin(w0, w4, memory[..], h1);
      FramedMore(w0, memory[..], h1, h0 + h1);
    }

    method TakeWhole(header: nat, ghost i: nat)
      requires Valid() && i < |blocks| && blocks[i].off == header && !blocks[i].used
      modifies this`blocks, this`free, memory
      ensures Shape(Heads(blocks, poolSize)) && blocks == Mark(old(blocks), i, true)
          && free == Without(old(free), header)
      ensures Framed(old(memory[..]), memory[..], Heads(old(blocks), poolSize) + Heads(blocks, poolSize))
    {
      hide Kept, Ring, Chain, Tiled, Framed, Apart, Heads, RingIn, Coalesced, Without;
      ghost var w0, h0, f0 := memory[..], Heads(blocks, poolSize), free;
      Reading(i);
      Unlink(header, h0);
      ghost var w1 := memory[..];
      WithoutMembers(f0, header);
      ClearLinks(header, h0);
      ghost var w2 := memory[..];
      SetUsed(header, true, i);
      AgreeJoin(w0, w1, w2, h0);
      AgreeJoin(w0, w2, memory[..], h0);
      FramedMore(w0, memory[..], h0, h0 + Heads(blocks, poolSize));
    }

    /** Once the new state is known to be well formed: valid again, user data kept. */
    lemma Settle(w0: seq<int>, b0: seq<Block>, heads: set<nat>, h: set<nat>)
      requires Shape(h)
      requires WellFormed(Abs(), poolSize) && Tiled(b0, HEADER, START, poolSize)
      requires heads == Heads(b0, poolSize) + Heads(blocks, poolSize) && Framed(w0, memory[..], heads)
      ensures Valid() && Kept(w0, memory[..], b0, blocks, HEADER)
    {
      ListedRing(blocks, free, poolSize);
      HeadsApart(blocks, poolSize);
      FramedKept(w0, memory[..], b0, blocks, poolSize);
    }

    /** rt_memheap_free; the source asserts that q is a live allocation. */
    method Free(q: Option<nat>)
      requires Valid() && (q.Some? ==> Live(Abs(), q.value))
      modifies this, memory
      ensures Valid() && Abs() == FreeSpec(old(Abs()), q)
      ensures Kept(old(memory[..]), memory[..], old(blocks), blocks, HEADER)
      ensures forall k {:trigger UserWord(blocks, HEADER, k)} ::
          UserWord(blocks, HEADER, k) ==> UserWord(old(blocks), HEADER, k)
    {
      hide Kept, Listed, Ring, Chain, Tiled, Release, Heads, Framed, UserWord;
      hide WellFormed, Coalesced, Coalesce, Mark, Apart, InMemory, RingIn;
      KeptRefl(memory[..], blocks, HEADER);
      if q.None? { return; }
      ghost var i, b0, w0, heads := At(blocks, q.value - HEADER), blocks, memory[..], Heads(blocks, poolSize);
      ReleaseKeeps(Abs(), i, poolSize);
      ReleaseBlock(q.value - HEADER, i);
      FramedMore(w0, memory[..], heads, heads + Heads(blocks, poolSize));
      Settle(w0, b0, heads + Heads(blocks, poolSize), heads);
      ReleasedUsers(b0, i);
    }

    method ReleaseBlock(h: nat, ghost i: nat)
      requires Valid() && i < |blocks| && blocks[i].off == h && blocks[i].used
      modifies this, memory
      ensures Shape(Heads(old(blocks), poolSize)) && Abs() == Release(old(Abs()), i)
      ensures blocks == Coalesce(Mark(old(blocks), i, false), i, HEADER)
      ensures Framed(old(memory[..]), memory[..], Heads(old(blocks), poolSize))
    {
      hide Kept, Ring, Chain, Tiled, Framed, Apart, Heads, RingIn, Coalesced, Without, Coalesce, Listed;
      ghost var b0, f0, w0, heads, p := blocks, free, memory[..], Heads(blocks, poolSize), poolSize;
      RightNotSelf(b0, f0, i, poolSize);
      Reading(i);
      SetUsed(h, false, i);
      ghost var w1 := memory[..];
      Reading(i);
      avail := avail + (memory[h + 2] - h - HEADER);
      var header, insert := MergeAround(h, i, heads);
      ghost var w2 := memory[..];
      if insert { Push(header, heads); }
      AgreeJoin(w0, w1, w2, heads);
      AgreeJoin(w0, w2, memory[..], heads);
    }

    /** Both merges around the free block i. */
    method MergeAround(h: nat, ghost i: nat, ghost heads: set<nat>) returns (header: nat, insert: bool)
      requires Shape(heads) && i < |blocks| && blocks[i].off == h && !blocks[i].used
      requires FreeRight(blocks, i) ==> blocks[i + 1].off in free
      modifies this`avail, this`blocks, this`free, memory
      ensures Shape(heads) && Framed(old(memory[..]), memory[..], heads)
      ensures blocks == Coalesce(old(blocks), i, HEADER) && insert == !FreeLeft(old(blocks), i)
          && (insert ==> header == h)
      ensures free == (if FreeRight(old(blocks), i) then Without(old(free), old(blocks)[i + 1].off) else old(free))
      ensures avail == old(avail) + (if insert then 0 else HEADER) + (if FreeRight(old(blocks), i) then HEADER else 0)
    {
      hide Kept, Ring, Chain, Tiled, Framed, Apart, Heads, RingIn, Coalesced, Without, Coalesce;
      ghost var b1, w1 := blocks, memory[..];
      header, insert := MergeLeft(h, i, heads);
      ghost var w2 := memory[..];
      MergeOrder(b1, i);
      MergeRight(header, if insert then i else i - 1, i, b1, heads);
      AgreeJoin(w1, w2, memory[..], heads);
    }

    /** The merge with a free left neighbour, which keeps its place on the free list. */
    method MergeLeft(h: nat, ghost i: nat, ghost heads: set<nat>) returns (header: nat, insert: bool)
      requires Shape(heads) && i < |blocks| && blocks[i].off == h
      modifies this`avail, this`blocks, memory
      ensures Shape(heads) && Framed(old(memory[..]), memory[..], heads)
      ensures insert == !FreeLeft(old(blocks), i)
          && blocks == (if insert then old(blocks) else Absorb(old(blocks), i - 1, HEADER))
      ensures avail == old(avail) + if insert then 0 else HEADER
      ensures header == if insert then h else old(blocks)[i - 1].off
    {
      hide Kept, Ring, Chain, Tiled, Framed, Apart, Heads, RingIn, Coalesced;
      Reading(i);
      if i > 0 { Reading(i - 1); }
      header, insert := h, true;
      var prev := memory[h + 3];
      FramedSelf(memory[..], heads);
      if !UsedFlag(memory[prev]) {
        avail := avail + HEADER;
        Merge(prev, h, i - 1, heads);
        header, insert := prev, false;
      }
    }

    /** The merge with a free right neighbour, which leaves the free list. Block j is
        the released one, block i before any left merge. */
    method MergeRight(header: nat, ghost j: nat, ghost i: nat, ghost b0: seq<Block>, ghost heads: set<nat>)
      requires Shape(heads) && j < |blocks| && blocks[j].off == header && i < |b0|
      requires FreeRight(blocks, j) == FreeRight(b0, i)
          && (FreeRight(b0, i) ==> blocks[j + 1].off == b0[i + 1].off && b0[i + 1].off in free)
      modifies this`avail, this`blocks, this`free, memory
      ensures Shape(heads) && Framed(old(memory[..]), memory[..], heads)
      ensures blocks == (if FreeRight(b0, i) then Absorb(old(blocks), j, HEADER) else old(blocks))
      ensures free == (if FreeRight(b0, i) then Without(old(free), b0[i + 1].off) else old(free))
      ensures avail == old(avail) + if FreeRight(b0, i) then HEADER else 0
    {
      hide Kept, Ring, Chain, Tiled, Framed, Apart, Heads, RingIn, Coalesced, Without;
      Reading(j);
      if j + 1 < |blocks| { Reading(j + 1); }
      var next := memory[header + 2];
      ghost var w := memory[..];
      FramedSelf(w, heads);
      if !UsedFlag(memory[next]) {
        avail := avail + HEADER;
        Merge(header, next, j, heads);
        ghost var w1 := memory[..];
        Unlink(next, heads);
        AgreeJoin(w, w1, memory[..], heads);
      }
    }

    /** rt_memheap_realloc; q is NULL or live. The heap is valid again unless the call
        misfires; then these are the words it has written. */
    method Realloc(q: Option<nat>, bytes: nat) returns (r: Option<nat>)
      requires Valid() && bytes < WORD_RANGE && 4 * poolSize <= WORD_RANGE && (q.Some? ==> Live(Abs(), q.value))
      modifies this, memory
      ensures Abs() == ReallocSpec(old(Abs()), q, bytes, poolSize).0
          && r == ReallocSpec(old(Abs()), q, bytes, poolSize).1
      ensures Valid() <==> !StepMisfires(old(Abs()), OpRealloc(q, bytes))
      ensures Valid() ==> Kept(old(memory[..]), memory[..], old(blocks), blocks, HEADER)
      ensures Valid() && r.Some? && q.Some? ==>
                var c := Min(Words32(bytes), old(blocks)[At(old(blocks), q.value - HEADER)].size);
                Slice(memory[..], r.value, c) == Slice(old(memory[..]), q.value, c)
      ensures !Valid() ==> q.Some? && Grown(old(memory[..]), memory[..], q.value, Words32(bytes))
    {
      hide Kept, Listed, Ring, Chain, Tiled, Take, FreeSpec, ResizeSpec, Heads, UserWord, Slice, WellFormed;
      if bytes == 0 {
        Free(q);
        return None;
      }
      var size := AlignWords(bytes);
      if size < MIN_ALLOC { size := MIN_ALLOC; }
      if q.None? {
        WordsAgain(size);
        r := Alloc(4 * size);
        return;
      }
      r := Resize(q.value, size, At(blocks, q.value - HEADER));
    }

    /** rt_memheap_realloc for a live q and a nonzero size. */
    method Resize(q: nat, n: nat, ghost i: nat) returns (r: Option<nat>)
      requires Valid() && MIN_ALLOC <= n < WORDS && 4 * poolSize <= WORD_RANGE
      requires i < |blocks| && blocks[i].off + HEADER == q && blocks[i].used
      modifies this, memory
      ensures Abs() == ResizeSpec(old(Abs()), i, n, poolSize).0 && r == ResizeSpec(old(Abs()), i, n, poolSize).1
      ensures Valid() <==> !Misfires(old(Abs()), i, n)
      ensures Valid() ==> Kept(old(memory[..]), memory[..], old(blocks), blocks, HEADER)
      ensures Valid() && r.Some? ==>
          Slice(memory[..], r.value, Min(n, old(blocks)[i].size)) ==
          Slice(old(memory[..]), q, Min(n, old(blocks)[i].size))
      ensures !Valid() ==> Grown(old(memory[..]), memory[..], q, n)
    {
      hide Kept, Listed, Ring, Chain, Tiled, Heads, UserWord, Slice, WellFormed, Grow, GrowWithin, Shrink, MoveSpec,
          RingIn, Apart, InMemory;
      Reading(i);
      if i + 1 < |blocks| { Reading(i + 1); }
      var header := q - HEADER;
      var size := memory[header + 2] - header - HEADER;
      if n > size {
        var next := memory[header + 2];
        if !UsedFlag(memory[next]) {
          var nextSize := memory[next + 2] - next - HEADER;
          if (4 * nextSize + 4 * size) % WORD_RANGE > (4 * n + 4 * MIN_ALLOC) % WORD_RANGE {
            GrowBlock(header, n, size, i);
            return Some(q);
          }
        }
        r := MoveBlock(q, n, size, i);
        return;
      }
      if n + HEADER + MIN_ALLOC >= size {
        KeptRefl(memory[..], blocks, HEADER);
        return Some(q);
      }
      ShrinkKeeps(Abs(), i, n, poolSize);
      ShrinkBlock(header, n, size, i);
      r := Some(q);
    }

    /** Growing into the free block behind: its header moves, to wherever 32-bit arithmetic
        puts it. */
    method GrowBlock(header: nat, n: nat, size: nat, ghost i: nat)
      requires Valid() && i < |blocks| && blocks[i] == Block(header, size, true) && size < n < WORDS
      requires Passes(blocks, i, n) && 4 * poolSize <= WORD_RANGE
      modifies this, memory
      ensures Abs() == Grow(old(Abs()), i, n, poolSize)
      ensures Valid() <==> !Misfires(old(Abs()), i, n)
      ensures Valid() ==> Kept(old(memory[..]), memory[..], old(blocks), blocks, HEADER)
      ensures Valid() ==> Slice(memory[..], header + HEADER, size) == Slice(old(memory[..]), header + HEADER, size)
      ensures Grown(old(memory[..]), memory[..], header + HEADER, n)
    {
      hide Kept, Listed, Ring, Chain, Tiled, Heads, UserWord, Slice, Framed, Apart, RingIn, Coalesced, Grown, Grow;
      ghost var s0, w0, h0, p := Abs(), memory[..], Heads(blocks, poolSize), poolSize;
      HeaderLands(s0, i, n, p);
      GrowKeepsIff(s0, i, n, p);
      avail := (avail - (n - size)) % WORDS;
      var inUse := (poolSize - avail) % WORDS;
      if inUse > maxUsed { maxUsed := inUse; }
      MoveHeader(header, n, i, s0);
      GrowFields(s0, i, n, p);
      if !Misfires(s0, i, n) {
        Settle(w0, s0.blocks, h0 + Heads(blocks, p), Heads(blocks, p));
        SliceKept(w0, memory[..], s0.blocks, blocks, HEADER, i, i, size);
      }
    }

    method MoveHeader(header: nat, n: nat, ghost i: nat, ghost s0: State)
      requires Shape(Heads(blocks, poolSize)) && Listed(blocks, free) && 4 * poolSize <= WORD_RANGE
      requires WellFormed(s0, poolSize) && s0.blocks == blocks && s0.free == free
      requires i < |blocks| && blocks[i].off == header && blocks[i].used && blocks[i].size < n < WORDS
          && Passes(blocks, i, n)
      modifies this`blocks, this`free, memory
      ensures blocks == Grow(s0, i, n, poolSize).blocks && free == Grow(s0, i, n, poolSize).free
      ensures Grown(old(memory[..]), memory[..], header + HEADER, n)
      ensures !Misfires(s0, i, n) ==>
                && Shape(Heads(blocks, poolSize))
                && Framed(old(memory[..]), memory[..], Heads(old(blocks), poolSize) + Heads(blocks, poolSize))
    {
      hide Kept, Listed, Ring, Chain, Tiled, Heads, UserWord, Slice, Framed, Apart, RingIn, Coalesced, Without, Grow,
          Misfires, GrowWords, CutWords, PushWords, UnlinkWords, MergeWords, WellFormed;
      ghost var b0, f0, w0, h0, p := blocks, free, memory[..], Heads(blocks, poolSize), poolSize;
      RightNotSelf(b0, f0, i, p);
      HeaderLands(s0, i, n, p);
      Reading(i);
      Reading(i + 1);
      var next := memory[header + 2];
      Unlink(next, h0);
      ghost var w1 := memory[..];
      Merge(header, next, i, h0);
      ghost var w2 := memory[..];
      AgreeJoin(w0, w1, w2, h0);
      AbsorbListed(b0, f0, i, p);
      ListedRing(blocks, free, p);
      HeadsApart(blocks, p);
      Reading(i);
      FirstFree(h0);
      var x := (header + HEADER + n) % WORDS;
      Build(header, x);
      FirstStays(w2, header, x);
      Enlist(x);
      GrowIs(w0, w1, w2, memory[..], header, x, next);
      ghost var b2, f2 := blocks, free;
      blocks, free := Grow(s0, i, n, p).blocks, Grow(s0, i, n, p).free;
      if !Misfires(s0, i, n) { Regrown(w0, w2, s0, b2, f2, i, n, p); }
    }

    lemma FirstFree(heads: set<nat>)
      requires Shape(heads)
      ensures 5 < memory.Length && 0 <= memory[4] && memory[4] + 5 < memory.Length
    {
      assert Edge(memory[..], free, 0);
    }

    /** A free header at x behind the one at h. */
    method Build(h: nat, x: nat)
      requires h + 3 <= x && x + 5 < memory.Length && x + HEADER <= memory[h + 2] && memory[h + 2] + 5 < memory.Length
      modifies memory
      ensures memory[..] == CutWords(old(memory[..]), h, x)
    {
      ghost var w := memory[..];
      Write(x, FREE_WORD);
      Write(x + 1, HEAP);
      Write(x + 3, h);
      var next := memory[h + 2];
      Write(x + 2, next);
      assert memory[..] == Put(Put(Put(Put(w, x, FREE_WORD), x + 1, HEAP), x + 3, h), x + 2, w[h + 2]);
      Write(next + 3, x);
      Write(h + 2, x);
    }

    /** x put behind the free-list header. */
    method Enlist(x: nat)
      requires START <= x && x + 5 < memory.Length && 0 <= memory[4] && memory[4] + 5 < memory.Length
      modifies memory
      ensures memory[..] == PushWords(old(memory[..]), x)
    {
      ghost var w := memory[..];
      Write(x + 4, memory[4]);
      Write(x + 5, 0);
      assert memory[..] == Put(Put(w, x + 4, w[4]), x + 5, 0) && memory[4] == w[4];
      Write(memory[4] + 5, x);
      Write(4, x);
    }

    /** The heap after the header moved where it was meant to. */
    lemma Regrown(w0: seq<int>, w2: seq<int>, s0: State, b2: seq<Block>, f2: seq<nat>, i: nat, n: nat, p: nat)
      requires p == poolSize && 4 * p <= WORD_RANGE && |w2| == p + HEADER && memory.Length == |w2|
      requires WellFormed(s0, p) && i < |s0.blocks| && s0.blocks[i].used && s0.blocks[i].size < n
          && Grows(s0.blocks, i, n)
      requires b2 == Absorb(s0.blocks, i, HEADER) && f2 == Without(s0.free, s0.blocks[i + 1].off)
      requires Tiled(b2, HEADER, START, p) && Chain(w2, b2, p) && Ring(w2, f2) && RingIn(f2, Heads(b2, p))
          && Framed(w0, w2, Heads(s0.blocks, p))
      requires var h, x := s0.blocks[i].off, s0.blocks[i].off + HEADER + n;
          h + 5 < |w2| && memory[..] == PushWords(CutWords(w2, h, x), x)
      requires blocks == Grow(s0, i, n, p).blocks && free == Grow(s0, i, n, p).free
      ensures Shape(Heads(blocks, p)) && Framed(w0, memory[..], Heads(s0.blocks, p) + Heads(blocks, p))
    {
      hide Ring, Chain, Tiled, Heads, Framed, Apart, RingIn, Coalesced, Without, Grow, CutWords, PushWords, WellFormed;
      GrowExact(s0, i, n, p);
      Rebuilt(w2, b2, f2, i, n, p);
      CutUnmarked(b2, i, n);
      FramedJoin(w0, w2, memory[..], Heads(s0.blocks, p), Heads(blocks, p));
    }

    /** Shrinking: the remainder is a free block of its own, or joins the next one. */
    method ShrinkBlock(header: nat, n: nat, size: nat, ghost i: nat)
      requires Valid() && i < |blocks| && blocks[i] == Block(header, size, true) && Shrinks(size, n)
      requires WellFormed(Shrink(Abs(), i, n), poolSize)
      modifies this, memory
      ensures Valid() && Abs() == Shrink(old(Abs()), i, n)
      ensures Kept(old(memory[..]), memory[..], old(blocks), blocks, HEADER)
      ensures Slice(memory[..], header + HEADER, n) == Slice(old(memory[..]), header + HEADER, n)
    {
      hide Kept, Listed, Ring, Chain, Tiled, Heads, UserWord, Slice, Framed, Apart, RingIn, Coalesced;
      ghost var b0, w0, h0 := blocks, memory[..], Heads(blocks, poolSize);
      CutUsed(header, n, i);
      ghost var h1 := Heads(old(blocks), poolSize) + Heads(blocks, poolSize);
      Settle(w0, b0, h1, CutHeads(b0, i, n, poolSize));
      SliceKept(w0, memory[..], b0, blocks, HEADER, i, i, n);
    }

    method CutUsed(header: nat, n: nat, ghost i: nat)
      requires Valid() && i < |blocks| && blocks[i].off == header && blocks[i].used && Shrinks(blocks[i].size, n)
      modifies this`blocks, this`free, this`avail, memory
      ensures Shape(CutHeads(old(blocks), i, n, poolSize)) && Abs() == Shrink(old(Abs()), i, n)
      ensures Framed(old(memory[..]), memory[..], Heads(old(blocks), poolSize) + Heads(blocks, poolSize))
    {
      hide Kept, Listed, Ring, Chain, Tiled, Heads, UserWord, Slice, Framed, Apart, RingIn, Coalesced, Without;
      ghost var b0, f0, w0, h0, p := blocks, free, memory[..], Heads(blocks, poolSize), poolSize;
      RightNotSelf(b0, f0, i, p);
      Reading(i);
      var x := Cut(header, n, i);
      ghost var w1, h1 := memory[..], Heads(blocks, p);
      CutIs(b0, i, n, p);
      if FreeRight(b0, i) { FreeCovers(b0, i + 1); }
      JoinRight(x, i + 1, h1);
      ghost var w2 := memory[..];
      if FreeRight(b0, i) { WithoutMembers(f0, b0[i + 1].off); }
      Reading(i + 1);
      avail := avail + (memory[x + 2] - x - HEADER);
      Push(x, h1);
      AgreeJoin(w0, w1, w2, h1);
      AgreeJoin(w0, w2, memory[..], h1);
      ShrunkHeads(b0, i, n, p);
      FramedMore(w0, memory[..], h1, h0 + Heads(blocks, p));
    }

    /** The block at x, not on the free list yet, swallows a free right neighbour. */
    method JoinRight(x: nat, ghost j: nat, ghost heads: set<nat>)
      requires Shape(heads) && j < |blocks| && blocks[j].off == x
      requires FreeRight(blocks, j) ==> blocks[j + 1].off in free && blocks[j + 1].size <= avail
      modifies this`blocks, this`free, this`avail, memory
      ensures Shape(heads) && blocks == PlugNext(old(blocks), j, HEADER) && Framed(old(memory[..]), memory[..], heads)
      ensures free == if FreeRight(old(blocks), j) then Without(old(free), old(blocks)[j + 1].off) else old(free)
      ensures avail == old(avail) - if FreeRight(old(blocks), j) then old(blocks)[j + 1].size else 0
    {
      hide Kept, Ring, Chain, Tiled, Framed, Apart, Heads, RingIn, Coalesced, Without;
      Reading(j);
      if j + 1 < |blocks| { Reading(j + 1); }
      ghost var w := memory[..];
      FramedSelf(w, heads);
      var next := memory[x + 2];
      if !UsedFlag(memory[next]) {
        avail := avail - (memory[next + 2] - next - HEADER);
        Merge(x, next, j, heads);
        ghost var w1 := memory[..];
        Unlink(next, heads);
        AgreeJoin(w, w1, memory[..], heads);
      }
    }

    /** The tail of rt_memheap_realloc: a new block, a copy, and the old block freed. */
    method MoveBlock(q: nat, n: nat, size: nat, ghost i: nat) returns (r: Option<nat>)
      requires Valid() && MIN_ALLOC <= n < WORDS && size < n
      requires i < |blocks| && q >= HEADER && blocks[i] == Block(q - HEADER, size, true)
      modifies this, memory
      ensures Valid() && Abs() == MoveSpec(old(Abs()), q, n, poolSize).0 && r == MoveSpec(old(Abs()), q, n, poolSize).1
      ensures Kept(old(memory[..]), memory[..], old(blocks), blocks, HEADER)
      ensures r.Some? ==> Slice(memory[..], r.value, size) == Slice(old(memory[..]), q, size)
    {
      hide Kept, Listed, Ring, Chain, Tiled, Heads, UserWord, Slice, WellFormed, FreeSpec, TakeAt, RingIn, Apart,
          InMemory;
      ghost var s0, w0 := Abs(), memory[..];
      WordsAgain(n);
      r := Alloc(4 * n);
      if r.Some? {
        ghost var l, k := TakeLayout(s0, i, n, poolSize);
        ghost var b1, w1 := blocks, memory[..];
        Relocate(q, r.value, size, k, l);
        SliceKept(w0, w1, s0.blocks, b1, HEADER, i, k, size);
        KeptByMove(w0, w1, memory[..], s0.blocks, l, b1, blocks, HEADER, START, poolSize, size);
      }
    }

    /** Copy c words from block k to block l, then free block k. */
    method Relocate(from: nat, q: nat, c: nat, ghost k: nat, ghost l: nat)
      requires Valid() && k < |blocks| && l < |blocks| && k != l && blocks[k].used && blocks[l].used
      requires blocks[k].off + HEADER == from && blocks[l].off + HEADER == q && c <= blocks[k].size
          && c <= blocks[l].size
      modifies this, memory
      ensures Valid() && Abs() == FreeSpec(old(Abs()), Some(from))
      ensures Moved(old(memory[..]), memory[..], old(blocks), blocks, HEADER, q, c)
      ensures Slice(memory[..], q, c) == Slice(old(memory[..]), from, c)
    {
      hide Kept, Listed, Ring, Chain, Heads, UserWord, Slice, RingIn, Apart, InMemory, Coalesced, Coalesce, Mark, Moved;
      ghost var b0, w0 := blocks, memory[..];
      Reading(k);
      Reading(l);
      AtIs(blocks, k, poolSize);
      Store(q, memory[from..from + c], l);
      ghost var w1 := memory[..];
      Free(Some(from));
      MovedByRelease(w0, w1, memory[..], b0, k, l, blocks, HEADER, from, q, c);
    }

    /** User code writes xs at the start of a live data area. */
    method Store(q: nat, xs: seq<int>, ghost l: nat)
      requires Valid() && l < |blocks| && blocks[l].off + HEADER == q && blocks[l].used && |xs| <= blocks[l].size
      modifies memory
      ensures Valid() && q + |xs| <= memory.Length && memory[..] == Overlay(old(memory[..]), q, xs)
    {
      hide Listed, Ring, Chain, Heads, RingIn, Apart, Coalesced, AgreeLinks, AgreeFree;
      ghost var w := memory[..];
      Reading(l);
      OverlayAgrees(w, blocks, l, q, xs, poolSize);
      forall d | 0 <= d < |xs| { memory[q + d] := xs[d]; }
      assert memory[..] == Overlay(w, q, xs);
      RingFrame(w, memory[..], free, Heads(blocks, poolSize));
      ChainFrame(w, memory[..], blocks, poolSize, Heads(blocks, poolSize));
    }
  }

  lemma RingWithout(fl: seq<nat>, x: nat, heads: set<nat>)
    requires RingIn(fl, heads)
    ensures RingIn(Without(fl, x), heads)
  {
    var r := Without(fl, x);
    WithoutMembers(fl, x);
    forall i | 0 <= i < |r|
      ensures r[i] in heads && r[i] != 0
    {
      assert r[i] in r;
      var j :| 0 <= j < |fl| && fl[j] == r[i];
    }
  }

  lemma PushReads(w: seq<int>, fl: seq<nat>, x: nat, heads: set<nat>)
    requires Ring(w, fl) && RingIn(fl, heads) && Apart(heads) && x in heads && x !in fl && x != 0 && InMemory(heads, w)
    ensures Put(Put(w, x + 4, w[4]), x + 5, 0)[4] == w[4]
  {
    assert 0 in heads && 0 + HEADER <= x;
  }

  lemma FramedSelf(w: seq<int>, heads: set<nat>)
    ensures Framed(w, w, heads)
  {
  }

  lemma ReleaseUser(bs: seq<Block>, i: nat, k: int)
    requires i < |bs| && UserWord(Coalesce(Mark(bs, i, false), i, HEADER), HEADER, k)
    ensures UserWord(bs, HEADER, k)
  {
    CoalesceUser(Mark(bs, i, false), HEADER, i, k);
    MarkUser(bs, HEADER, i, false, k);
  }

  /** w1 is what growing the block at q in place to n words makes of w. */
  ghost predicate Grown(w: seq<int>, w1: seq<int>, q: nat, n: nat) {
    && HEADER <= q < |w| && q <= w[q - HEADER + 2] && w[q - HEADER + 2] + 5 < |w|
    && w1 == GrowWords(w, q - HEADER, (q + n) % WORDS)
  }

  lemma GrowIs(w0: seq<int>, w1: seq<int>, w2: seq<int>, w3: seq<int>, h: nat, x: nat, next: nat)
    requires h + 5 < |w0| && w0[h + 2] == next && next + 5 < |w0|
    requires w1 == UnlinkWords(w0, next) && w2 == MergeWords(w1, h, next) && w3 == PushWords(CutWords(w2, h, x), x)
    ensures w3 == GrowWords(w0, h, x)
  {
  }

  /** The cut leaves the first link of the free list alone. */
  lemma FirstStays(w: seq<int>, h: nat, x: nat)
    requires START <= h && h + 5 < |w| && h + 3 <= x && x + HEADER <= w[h + 2] && w[h + 2] + 5 < |w|
    ensures |CutWords(w, h, x)| == |w| && CutWords(w, h, x)[4] == w[4]
  {
  }

  lemma CutUnmarked(bs: seq<Block>, i: nat, n: nat)
    requires i < |bs| && n + HEADER <= bs[i].size && bs[i].used
    ensures CutBlocks(bs, i, n) == Split(bs, i, n, HEADER)
  {
  }

  lemma ReleasedUsers(bs: seq<Block>, i: nat)
    requires i < |bs|
    ensures var r := Coalesce(Mark(bs, i, false), i, HEADER);
      forall k {:trigger UserWord(r, HEADER, k)} :: UserWord(r, HEADER, k) ==> UserWord(bs, HEADER, k)
  {
    forall k | UserWord(Coalesce(Mark(bs, i, false), i, HEADER), HEADER, k)
      ensures UserWord(bs, HEADER, k)
    {
      ReleaseUser(bs, i, k);
    }
  }

  lemma RightNotSelf(bs: seq<Block>, fl: seq<nat>, i: nat, p: nat)
    requires Tiled(bs, HEADER, START, p) && Listed(bs, fl) && i < |bs| && bs[i].used
    ensures bs[i].off != 0 && bs[i].off !in fl && bs[i].off in Heads(bs, p)
    ensures FreeRight(bs, i) ==> bs[i + 1].off in fl && bs[i].off !in Without(fl, bs[i + 1].off)
  {
    StartBound(bs, HEADER, START, p, i);
    if FreeRight(bs, i) { WithoutMembers(fl, bs[i + 1].off); }
  }

  lemma WordsAgain(n: nat)
    requires MIN_ALLOC <= n < WORDS
    ensures Words32(4 * n) == n
  {
    assert 4 * n + 3 < WORD_RANGE && (4 * n + 3) / 4 == n;
  }

  /** The headers while a used block is being cut. */
  ghost function CutHeads(bs: seq<Block>, i: nat, n: nat, p: nat): set<nat>
    requires i < |bs| && Shrinks(bs[i].size, n)
  {
    Heads(Split(bs, i, n, HEADER), p)
  }

  lemma CutIs(bs: seq<Block>, i: nat, n: nat, p: nat)
    requires i < |bs| && Shrinks(bs[i].size, n) && bs[i].used
    ensures CutBlocks(bs, i, n) == Split(bs, i, n, HEADER)
  {
  }

  /** Cutting and merging leaves only old headers and the new one. */
  lemma ShrunkHeads(bs: seq<Block>, i: nat, n: nat, p: nat)
    requires Tiled(bs, HEADER, START, p) && i < |bs| && Shrinks(bs[i].size, n)
    ensures CutHeads(bs, i, n, p) <= Heads(bs, p) + Heads(PlugNext(Split(bs, i, n, HEADER), i + 1, HEADER), p)
  {
    var r := PlugNext(Split(bs, i, n, HEADER), i + 1, HEADER);
    SplitHeads(bs, i, n, p);
    assert r[i + 1].off == bs[i].off + HEADER + n;
  }

  /** Where the new block (l) and an old used block (k) are after a successful
      allocation. */
  lemma TakeLayout(s: State, i: nat, n: nat, p: nat) returns (l: nat, k: nat)
    requires WellFormed(s, p) && i < |s.blocks| && s.blocks[i].used && Take(s, n, p).1.Some?
    ensures l < |s.blocks| && !s.blocks[l].used && n <= s.blocks[l].size
        && s.blocks[l].off + HEADER == Take(s, n, p).1.value
    ensures var bs := Take(s, n, p).0.blocks;
      && bs == TakeBlocks(s.blocks, l, n) && l < |bs| && k < |bs| && l != k
      && bs[l].off == s.blocks[l].off && bs[l].used && bs[l].size >= n && bs[k] == s.blocks[i]
  {
    var j := FindFree(s.blocks, s.free, 0, n);
    FoundIsFree(s, j, p);
    l := At(s.blocks, s.free[j]);
    k := if i < l || !Cuts(s.blocks[l].size, n) then i else i + 1;
  }
}
