/** rt-thread/src/mem.c, lines 305 to 311: when the search loop of rt_malloc ends. */
module SmallHeapSearch {
  import opened Common
  import opened Tiling
  import opened SmallHeapSpec

  /** The loop guard: an unsigned comparison of 32-bit byte offsets. */
  predicate Guard(ptr: nat, n: nat, m: nat) { 4 * ptr < (4 * m - 4 * n) % WORD_RANGE }

  /** The header at ptr is that of a large enough free block; heap_end counts as used. */
  predicate Accepts(bs: seq<Block>, ptr: nat, n: nat) {
    var i := IndexFrom(bs, ptr, 0);
    i < |bs| && !bs[i].used && bs[i].size >= n
  }

  /** The next field of the header at ptr; heap_end is its own successor. */
  function NextPtr(bs: seq<Block>, ptr: nat, m: nat): nat {
    var i := IndexFrom(bs, ptr, 0);
    if i < |bs| then NextOff(bs, i, m + HEADER) else m + HEADER
  }

  /** Where the loop stands after k turns from ptr; None once it has ended. */
  function Walk(bs: seq<Block>, ptr: nat, n: nat, m: nat, k: nat): Option<nat>
    decreases k
  {
    if k == 0 then Some(ptr)
    else if !Guard(ptr, n, m) || Accepts(bs, ptr, n) then None
    else Walk(bs, NextPtr(bs, ptr, m), n, m, k - 1)
  }

  /** The search for n words ends after some number of turns. */
  ghost predicate Ends(s: State, n: nat, m: nat) {
    exists k: nat :: Walk(s.blocks, s.lfree, n, m, k).None?
  }

  /** What initialisation makes sure of, and every call keeps: lfree is a header. */
  ghost predicate Searchable(s: State, m: nat) {
    Tiled(s.blocks, HEADER, 0, m + HEADER) && HintOk(s, m) && 4 * (m + 2 * HEADER) <= WORD_RANGE
  }

  lemma HintPlace(s: State, m: nat) returns (i: nat)
    requires Searchable(s, m)
    ensures i <= |s.blocks| && s.lfree == OffAt(s.blocks, i, m + HEADER)
  {
    if s.lfree == m + HEADER {
      i := |s.blocks|;
    } else {
      i :| 0 <= i < |s.blocks| && s.blocks[i].off == s.lfree && !s.blocks[i].used;
    }
  }

  /** For a request no larger than the heap the guard fails at heap_end at the latest. */
  lemma {:induction false} EndsFrom(bs: seq<Block>, i: nat, n: nat, m: nat)
    requires Tiled(bs, HEADER, 0, m + HEADER) && i <= |bs| && n <= m && 4 * m < WORD_RANGE
    ensures Walk(bs, OffAt(bs, i, m + HEADER), n, m, |bs| - i + 1).None?
    decreases |bs| - i
  {
    IndexIs(bs, HEADER, 0, m + HEADER, OffAt(bs, i, m + HEADER), i);
    assert (4 * m - 4 * n) % WORD_RANGE == 4 * m - 4 * n;
    if i < |bs| { EndsFrom(bs, i + 1, n, m); }
  }

  /** For a larger one nothing fits, and the guard, which has wrapped, never fails: the
      loop walks on to heap_end and stays there. */
  lemma {:induction false} NeverEnds(bs: seq<Block>, i: nat, n: nat, m: nat, k: nat)
    requires Tiled(bs, HEADER, 0, m + HEADER) && i <= |bs| && m < n && n + HEADER < WORD_RANGE / 4
    ensures Walk(bs, OffAt(bs, i, m + HEADER), n, m, k) == Some(OffAt(bs, Min(i + k, |bs|), m + HEADER))
    decreases k
  {
    IndexIs(bs, HEADER, 0, m + HEADER, OffAt(bs, i, m + HEADER), i);
    assert (4 * m - 4 * n) % WORD_RANGE == WORD_RANGE + 4 * m - 4 * n;
    if i < |bs| { EndBound(bs, HEADER, 0, m + HEADER, i); }
    if k > 0 { NeverEnds(bs, Min(i + 1, |bs|), n, m, k - 1); }
  }

  /** The search ends if and only if the request is no larger than the heap. */
  lemma SearchEndsIff(s: State, n: nat, m: nat)
    requires Searchable(s, m) && n + HEADER < WORD_RANGE / 4
    ensures Ends(s, n, m) <==> n <= m
  {
    var i := HintPlace(s, m);
    if n <= m {
      EndsFrom(s.blocks, i, n, m);
    } else {
      forall k: nat
        ensures Walk(s.blocks, s.lfree, n, m, k).Some?
      {
        NeverEnds(s.blocks, i, n, m, k);
      }
    }
  }

  /** rt_malloc comes back from its search. */
  ghost predicate Returns(s: State, bytes: nat, m: nat) {
    bytes == 0 || AlignWords(bytes) > m || Ends(s, Max(AlignWords(bytes), MIN_DATA), m)
  }

  /** So rt_malloc returns, whatever the state of the heap, unless it passes the size test
      on a heap of less than the least allocation. */
  lemma MallocReturnsIff(s: State, bytes: nat, m: nat)
    requires Searchable(s, m) && bytes < WORD_RANGE
    ensures Returns(s, bytes, m) <==> m >= MIN_DATA || bytes == 0 || AlignWords(bytes) > m
  {
    var n := Max(AlignWords(bytes), MIN_DATA);
    if AlignWords(bytes) <= m { SearchEndsIff(s, n, m); }
  }

  /** The range from 1024 to 1052 gives a heap of one word. A request for four bytes there
      is at heap_end after every turn but the first. */
  lemma TinyHeapSpins(k: nat)
    ensures UsableWords(1024, 1052) == 1 && Searchable(Initial(1), 1) && !Returns(Initial(1), 4, 1)
    ensures Walk(Initial(1).blocks, 0, MIN_DATA, 1, k + 1) == Some(1 + HEADER)
  {
    var s := Initial(1);
    MallocReturnsIff(s, 4, 1);
    NeverEnds(s.blocks, 0, MIN_DATA, 1, k + 1);
  }
}
