/** rt-thread/src/memheap.c: how the two linked lists lie in memory. Memory is one
    array of 32-bit words; the heap object's own free-list header is at address 0, the
    pool follows. Six header words: magic and used flag, pool_ptr, next, prev,
    next_free, prev_free. Every header update is a write that could damage a payload. */
module MemHeapLayout {
  import opened Common
  import opened Lists
  import opened Memory
  import opened Tiling
  import opened MemHeapSpec

  const FREE_WORD: int := 0x1ea01ea0
  const USED_WORD: int := 0x1ea01ea1
  const HEAP: int := 0                 // pool_ptr: the heap object
  const NULL: int := -1

  predicate UsedFlag(word: int) { word % 2 == 1 }

  function FlagWord(used: bool): int { if used then USED_WORD else FREE_WORD }

  // ---------------------------------------------------------------- header addresses

  /** The headers: the free list's own, the blocks', the tail block's. */
  ghost function Heads(bs: seq<Block>, p: nat): set<nat> {
    {0, p} + set i {:trigger bs[i]} | 0 <= i < |bs| :: bs[i].off
  }

  ghost predicate Apart(heads: set<nat>) {
    forall a, b {:trigger a in heads, b in heads} :: a in heads && b in heads && a < b ==> a + HEADER <= b
  }

  lemma HeadBound(bs: seq<Block>, p: nat, h: nat)
    requires Tiled(bs, HEADER, START, p) && h in Heads(bs, p)
    ensures h == 0 || START <= h <= p
  {
    EndBound(bs, HEADER, START, p, 0);
    if h != p && h != 0 { var j :| 0 <= j < |bs| && bs[j].off == h; EndBound(bs, HEADER, START, p, j); }
  }

  lemma HeadsApart(bs: seq<Block>, p: nat)
    requires Tiled(bs, HEADER, START, p)
    ensures Apart(Heads(bs, p)) && forall h {:trigger h in Heads(bs, p)} :: h in Heads(bs, p) ==> h <= p
  {
    forall h | h in Heads(bs, p)
      ensures h == 0 || START <= h <= p
    {
      HeadBound(bs, p, h);
    }
    forall a, b | a in Heads(bs, p) && b in Heads(bs, p) && a < b
      ensures a + HEADER <= b
    {
      if 0 < a < p {
        var i :| 0 <= i < |bs| && bs[i].off == a;
        EndBound(bs, HEADER, START, p, i);
        if b < p {
          var j :| 0 <= j < |bs| && bs[j].off == b;
          if i < j { Ordered(bs, HEADER, START, p, i, j); } else { if j < i { Ordered(bs, HEADER, START, p, j, i); } }
        }
      }
    }
  }

  // ---------------------------------------------------------------- what a write leaves alone

  ghost predicate Covered(heads: set<nat>, k: int) {
    exists h {:trigger h in heads} :: h in heads && h <= k < h + HEADER
  }

  /** Only header words differ. */
  ghost predicate Framed(w: seq<int>, w1: seq<int>, heads: set<nat>) {
    |w1| == |w| && forall k {:trigger w1[k]} :: 0 <= k < |w| && !Covered(heads, k) ==> w1[k] == w[k]
  }

  ghost predicate AgreeLinks(w: seq<int>, w1: seq<int>, heads: set<nat>) {
    |w1| == |w| && forall h {:trigger h in heads} :: h in heads && h + 5 < |w| ==>
      w1[h] == w[h] && w1[h + 1] == w[h + 1] && w1[h + 2] == w[h + 2] && w1[h + 3] == w[h + 3]
  }

  ghost predicate AgreeFree(w: seq<int>, w1: seq<int>, heads: set<nat>) {
    |w1| == |w| && forall h {:trigger h in heads} ::
        h in heads && h + 5 < |w| ==> w1[h + 4] == w[h + 4] && w1[h + 5] == w[h + 5]
  }

  /** One write to word d of a header. */
  lemma PutHead(w: seq<int>, h: nat, d: nat, v: int, heads: set<nat>)
    requires h in heads && d < HEADER && Apart(heads) && h + 5 < |w|
    ensures Framed(w, Put(w, h + d, v), heads)
    ensures d < 4 ==> AgreeFree(w, Put(w, h + d, v), heads)
    ensures d >= 4 ==> AgreeLinks(w, Put(w, h + d, v), heads)
  {
    var w1 := Put(w, h + d, v);
    assert Covered(heads, h + d);
    forall g | g in heads && g != h
      ensures g + HEADER <= h || h + HEADER <= g
    {
      if g < h { assert g + HEADER <= h; } else { assert h + HEADER <= g; }
    }
  }

  lemma FramedJoin(w: seq<int>, w1: seq<int>, w2: seq<int>, a: set<nat>, b: set<nat>)
    requires Framed(w, w1, a) && Framed(w1, w2, b)
    ensures Framed(w, w2, a + b)
  {
    forall k | 0 <= k < |w| && !Covered(a + b, k)
      ensures w2[k] == w[k]
    {
      CoveredMore(a, a + b, k);
      CoveredMore(b, a + b, k);
    }
  }

  lemma CoveredMore(a: set<nat>, b: set<nat>, k: int)
    requires a <= b
    ensures Covered(a, k) ==> Covered(b, k)
  {
    if Covered(a, k) {
      var h :| h in a && h <= k < h + HEADER;
      assert h in b;
    }
  }

  lemma FramedMore(w: seq<int>, w1: seq<int>, a: set<nat>, b: set<nat>)
    requires Framed(w, w1, a) && a <= b
    ensures Framed(w, w1, b)
  {
    forall k | Covered(a, k)
      ensures Covered(b, k)
    {
      CoveredMore(a, b, k);
    }
  }

  /** Header words are nobody's data, so such writes keep all user data. */
  lemma FramedKept(w: seq<int>, w1: seq<int>, b0: seq<Block>, b1: seq<Block>, p: nat)
    requires Tiled(b0, HEADER, START, p) && Tiled(b1, HEADER, START, p) && Framed(w, w1, Heads(b0, p) + Heads(b1, p))
    ensures Kept(w, w1, b0, b1, HEADER)
  {
    forall k {:trigger w1[k]} | 0 <= k < |w| && UserWord(b0, HEADER, k) && UserWord(b1, HEADER, k)
      ensures w1[k] == w[k]
    {
      if Covered(Heads(b0, p), k) { HeadNotUser(b0, p, k); }
      if Covered(Heads(b1, p), k) { HeadNotUser(b1, p, k); }
      forall h | h in Heads(b0, p) + Heads(b1, p)
        ensures !(h <= k < h + HEADER)
      {
        assert h in Heads(b0, p) || h in Heads(b1, p);
      }
    }
  }

  lemma HeadNotUser(bs: seq<Block>, p: nat, k: int)
    requires Tiled(bs, HEADER, START, p) && Covered(Heads(bs, p), k)
    ensures !UserWord(bs, HEADER, k)
  {
    var h :| h in Heads(bs, p) && h <= k < h + HEADER;
    if h == p {
      NotUser(bs, HEADER, START, p, |bs|, k);
    } else if h == 0 {
      forall j | 0 <= j < |bs|
        ensures !InData(bs[j], HEADER, k)
      {
        StartBound(bs, HEADER, START, p, j);
      }
    } else {
      var i :| 0 <= i < |bs| && bs[i].off == h;
      NotUser(bs, HEADER, START, p, i, k);
    }
  }

  // ---------------------------------------------------------------- the list of blocks

  ghost predicate LinkAt(w: seq<int>, h: nat, used: bool, next: int, prev: int) {
    h + 5 < |w| && w[h] == FlagWord(used) && w[h + 1] == HEAP && w[h + 2] == next && w[h + 3] == prev
  }

  function PrevOff(bs: seq<Block>, i: nat, p: nat): nat
    requires i <= |bs|
  {
    if i == 0 then p else bs[i - 1].off
  }

  ghost predicate BlockAt(w: seq<int>, bs: seq<Block>, i: nat, p: nat)
    requires i < |bs|
  {
    LinkAt(w, bs[i].off, bs[i].used, NextOff(bs, i, p), PrevOff(bs, i, p))
  }

  /** The address-ordered list is circular: it ends in the used, empty tail block. */
  ghost predicate Chain(w: seq<int>, bs: seq<Block>, p: nat) {
    && |w| == p + HEADER
    && (forall i {:trigger BlockAt(w, bs, i, p)} :: 0 <= i < |bs| ==> BlockAt(w, bs, i, p))
    && LinkAt(w, p, true, START, PrevOff(bs, |bs|, p))
  }

  lemma ChainFrame(w: seq<int>, w1: seq<int>, bs: seq<Block>, p: nat, heads: set<nat>)
    requires Chain(w, bs, p) && AgreeLinks(w, w1, heads) && Heads(bs, p) <= heads
    ensures Chain(w1, bs, p)
  {
    assert p in heads;
    forall i | 0 <= i < |bs|
      ensures BlockAt(w1, bs, i, p)
    {
      assert BlockAt(w, bs, i, p) && bs[i].off in Heads(bs, p);
    }
  }

  // ---------------------------------------------------------------- the free list

  /** Node i of the ring of free blocks; before the first and behind the last is the
      free-list header. */
  function Node(fl: seq<nat>, i: int): nat { if 0 <= i < |fl| then fl[i] else 0 }

  ghost predicate Edge(w: seq<int>, fl: seq<nat>, i: int) {
    var a, b := Node(fl, i - 1), Node(fl, i);
    a + 5 < |w| && b + 5 < |w| && w[a + 4] == b && w[b + 5] == a
  }

  /** next_free and prev_free are inverse to each other, and run through exactly the
      listed blocks. */
  ghost predicate Ring(w: seq<int>, fl: seq<nat>) {
    forall i {:trigger Edge(w, fl, i)} :: 0 <= i <= |fl| ==> Edge(w, fl, i)
  }

  ghost predicate RingIn(fl: seq<nat>, heads: set<nat>) {
    NoDup(fl) && 0 in heads && forall i {:trigger fl[i]} :: 0 <= i < |fl| ==> fl[i] in heads && fl[i] != 0
  }

  lemma RingFrame(w: seq<int>, w1: seq<int>, fl: seq<nat>, heads: set<nat>)
    requires Ring(w, fl) && AgreeFree(w, w1, heads) && RingIn(fl, heads)
    ensures Ring(w1, fl)
  {
    forall i | 0 <= i <= |fl|
      ensures Edge(w1, fl, i)
    {
      assert Edge(w, fl, i) && Node(fl, i - 1) in heads && Node(fl, i) in heads;
    }
  }

  /** item->next_free->prev_free = item->prev_free; item->prev_free->next_free = item->next_free. */
  function UnlinkWords(w: seq<int>, x: nat): seq<int>
    requires x + 5 < |w|
  {
    Put(Put(w, w[x + 4] + 5, w[x + 5]), w[x + 5] + 4, w[x + 4])
  }

  lemma NodesDiffer(fl: seq<nat>, heads: set<nat>, i: int, j: int)
    requires RingIn(fl, heads) && 0 <= i < |fl| && -1 <= j <= |fl| && i != j
    ensures Node(fl, i) != Node(fl, j)
  {
    if 0 <= j < |fl| { assert fl[i] != fl[j]; }
  }

  ghost predicate InMemory(heads: set<nat>, w: seq<int>) {
    forall h {:trigger h in heads} :: h in heads ==> h + 5 < |w|
  }

  lemma UnlinkFrame(w: seq<int>, fl: seq<nat>, j: nat, heads: set<nat>)
    requires Ring(w, fl) && RingIn(fl, heads) && Apart(heads) && j < |fl| && InMemory(heads, w)
    ensures fl[j] in heads && AgreeLinks(w, UnlinkWords(w, fl[j]), heads) && Framed(w, UnlinkWords(w, fl[j]), heads)
    ensures var x := fl[j]; w[x + 4] >= 0 && w[x + 5] >= 0 && w[x + 4] + 5 < |w| && w[x + 5] + 5 < |w|
  {
    hide AgreeFree, AgreeLinks, Framed, Apart;
    var a, b := Node(fl, j - 1), Node(fl, j + 1);
    assert Edge(w, fl, j) && Edge(w, fl, j + 1) && a in heads && b in heads && fl[j] in heads;
    var w1 := Put(w, b + 5, a);
    PutHead(w, b, 5, a, heads);
    PutHead(w1, a, 4, b, heads);
    AgreeJoin(w, w1, Put(w1, a + 4, b), heads);
  }

  lemma UnlinkRing(w: seq<int>, fl: seq<nat>, j: nat, heads: set<nat>)
    requires Ring(w, fl) && RingIn(fl, heads) && Apart(heads) && j < |fl| && InMemory(heads, w)
    ensures fl[j] in heads && Ring(UnlinkWords(w, fl[j]), Without(fl, fl[j]))
  {
    hide Edge, UnlinkWords, Apart;
    WithoutAt(fl, j);
    var r, w2 := fl[..j] + fl[j + 1..], UnlinkWords(w, fl[j]);
    forall i | 0 <= i <= |r|
      ensures Edge(w2, r, i)
    {
      UnlinkEdge(w, fl, j, heads, i);
    }
  }

  lemma AgreeJoin(w: seq<int>, w1: seq<int>, w2: seq<int>, heads: set<nat>)
    ensures AgreeLinks(w, w1, heads) && AgreeLinks(w1, w2, heads) ==> AgreeLinks(w, w2, heads)
    ensures AgreeFree(w, w1, heads) && AgreeFree(w1, w2, heads) ==> AgreeFree(w, w2, heads)
    ensures Framed(w, w1, heads) && Framed(w1, w2, heads) ==> Framed(w, w2, heads)
  {
  }

  /** Edge i of the shortened ring is an old edge, except the one across the gap. */
  lemma UnlinkEdge(w: seq<int>, fl: seq<nat>, j: nat, heads: set<nat>, i: int)
    requires Ring(w, fl) && RingIn(fl, heads) && Apart(heads) && j < |fl| && 0 <= i < |fl| && InMemory(heads, w)
    ensures fl[j] + 5 < |w| && Edge(UnlinkWords(w, fl[j]), fl[..j] + fl[j + 1..], i)
  {
    hide Apart;
    var r := fl[..j] + fl[j + 1..];
    assert fl[j] in heads && Edge(w, fl, j) && Edge(w, fl, j + 1);
    var a, b := Node(fl, j - 1), Node(fl, j + 1);
    var k := if i <= j then i else i + 1;
    assert Edge(w, fl, k);
    var c, d := Node(r, i - 1), Node(r, i);
    assert c == (if i <= j then Node(fl, i - 1) else Node(fl, i))
        && d == (if i < j then Node(fl, i) else Node(fl, i + 1));
    OwnWords(heads, a, b);
    if i != j {
      EdgeApart(fl, heads, j, i);
      WordsApart(heads, a, b, c, d);
    }
  }

  lemma OwnWords(heads: set<nat>, a: nat, b: nat)
    requires Apart(heads) && a in heads && b in heads
    ensures a + 4 != b + 5
  {
    if b < a { assert b + HEADER <= a; }
  }

  lemma EdgeApart(fl: seq<nat>, heads: set<nat>, j: nat, i: nat)
    requires RingIn(fl, heads) && j < |fl| && i < |fl| && i != j
    ensures var c, d := if i < j then Node(fl, i - 1) else Node(fl, i), if i < j then Node(fl, i) else Node(fl, i + 1);
      && c != Node(fl, j - 1) && d != Node(fl, j + 1)
      && Node(fl, j - 1) in heads && Node(fl, j + 1) in heads && c in heads && d in heads
  {
    if i < j {
      NodesDiffer(fl, heads, i, j + 1);
      NodesDiffer(fl, heads, j - 1, i - 1);
    } else {
      NodesDiffer(fl, heads, i, j - 1);
      NodesDiffer(fl, heads, j + 1, i + 1);
    }
  }

  lemma WordsApart(heads: set<nat>, a: nat, b: nat, c: nat, d: nat)
    requires Apart(heads) && a in heads && b in heads && c in heads && d in heads && a != c && b != d
    ensures c + 4 != a + 4 && c + 4 != b + 5 && d + 5 != b + 5 && d + 5 != a + 4
  {
    if c < b { assert c + HEADER <= b; }
    if b < c { assert b + HEADER <= c; }
    if d < a { assert d + HEADER <= a; }
    if a < d { assert a + HEADER <= d; }
  }

  /** The four writes that put a block behind the free-list header. */
  function PushWords(w: seq<int>, x: nat): seq<int>
    requires 5 < |w|
  {
    Put(Put(Put(Put(w, x + 4, w[4]), x + 5, 0), w[4] + 5, x), 4, x)
  }

  lemma PushFrame(w: seq<int>, fl: seq<nat>, x: nat, heads: set<nat>)
    requires Ring(w, fl) && RingIn(fl, heads) && Apart(heads) && x in heads && x !in fl && x != 0 && InMemory(heads, w)
    ensures 5 < |w| && AgreeLinks(w, PushWords(w, x), heads) && Framed(w, PushWords(w, x), heads)
    ensures 0 <= w[4] && w[4] + 5 < |w|
  {
    hide AgreeFree, AgreeLinks, Framed, Apart;
    var f := Node(fl, 0);
    assert Edge(w, fl, 0) && f in heads && 0 in heads;
    var w1 := Put(w, x + 4, f);
    var w2 := Put(w1, x + 5, 0);
    var w3 := Put(w2, f + 5, x);
    PutHead(w, x, 4, f, heads);
    PutHead(w1, x, 5, 0, heads);
    PutHead(w2, f, 5, x, heads);
    PutHead(w3, 0, 4, x, heads);
    AgreeJoin(w, w1, w2, heads);
    AgreeJoin(w, w2, w3, heads);
    AgreeJoin(w, w3, Put(w3, 4, x), heads);
  }

  lemma PushRing(w: seq<int>, fl: seq<nat>, x: nat, heads: set<nat>)
    requires Ring(w, fl) && RingIn(fl, heads) && Apart(heads) && x in heads && x !in fl && x != 0 && InMemory(heads, w)
    ensures Ring(PushWords(w, x), [x] + fl) && RingIn([x] + fl, heads)
  {
    hide Apart;
    var r, w4 := [x] + fl, PushWords(w, x);
    assert Edge(w, fl, 0) && 0 in heads;
    InsertMembers(fl, x, 0);
    assert Insert(fl, x, 0) == r;
    var f := Node(fl, 0);
    assert f in heads && f != x;
    WordsApart(heads, 0, f, x, x);
    WordsApart(heads, x, x, 0, f);
    forall i | 0 <= i <= |r|
      ensures Edge(w4, r, i)
    {
      if i > 1 {
        assert Edge(w, fl, i - 1);
        var c, d := Node(fl, i - 2), Node(fl, i - 1);
        assert Node(r, i - 1) == c && Node(r, i) == d;
        NodesDiffer(fl, heads, i - 2, -1);
        if |fl| > 0 { NodesDiffer(fl, heads, 0, i - 1); }
        WordsApart(heads, 0, f, c, d);
        assert c in fl;
        if i - 1 < |fl| { assert d in fl; }
        WordsApart(heads, x, x, c, d);
      }
    }
  }

  /** next_free = prev_free = NULL in a block that left the list. */
  function NullWords(w: seq<int>, x: nat): seq<int> { Put(Put(w, x + 4, NULL), x + 5, NULL) }

  lemma NullRing(w: seq<int>, fl: seq<nat>, x: nat, heads: set<nat>)
    requires Ring(w, fl) && RingIn(fl, heads) && Apart(heads) && x in heads && x !in fl && x != 0 && InMemory(heads, w)
    ensures Ring(NullWords(w, x), fl) && AgreeLinks(w, NullWords(w, x), heads) && Framed(w, NullWords(w, x), heads)
  {
    PutHead(w, x, 4, NULL, heads);
    PutHead(Put(w, x + 4, NULL), x, 5, NULL, heads);
    AgreeJoin(w, Put(w, x + 4, NULL), NullWords(w, x), heads);
    forall i | 0 <= i <= |fl|
      ensures Edge(NullWords(w, x), fl, i)
    {
      assert Edge(w, fl, i);
      var c, d := Node(fl, i - 1), Node(fl, i);
      assert i > 0 ==> c in fl;
      assert i < |fl| ==> d in fl;
      WordsApart(heads, x, x, c, d);
    }
  }

  // ---------------------------------------------------------------- splitting and merging

  /** Block i cut in two, its used flag left as it was. */
  function CutBlocks(bs: seq<Block>, i: nat, n: nat): seq<Block>
    requires i < |bs| && n + HEADER <= bs[i].size
  {
    Mark(Split(bs, i, n, HEADER), i, bs[i].used)
  }

  /** The header writes that cut the block at h in front of x. */
  function CutWords(w: seq<int>, h: nat, x: nat): seq<int>
    requires h + 5 < |w|
  {
    var next := w[h + 2];
    Put(Put(Put(Put(Put(Put(w, x, FREE_WORD), x + 1, HEAP), x + 3, h), x + 2, next), next + 3, x), h + 2, x)
  }

  /** Which words the cut changes. */
  lemma CutWordsAt(w: seq<int>, h: nat, x: nat)
    requires h + HEADER <= x && x + 5 < |w| && 0 <= w[h + 2] && x + HEADER <= w[h + 2] && w[h + 2] + 5 < |w|
    ensures var w1, next := CutWords(w, h, x), w[h + 2];
      && |w1| == |w| && w1[x] == FREE_WORD && w1[x + 1] == HEAP && w1[x + 2] == next && w1[x + 3] == h
      && w1[next + 3] == x && w1[h + 2] == x
      && forall k {:trigger w1[k]} :: 0 <= k < |w| && !(x <= k < x + 4) && k != next + 3 && k != h + 2 ==> w1[k] == w[k]
  {
  }

  lemma CutChain(w: seq<int>, bs: seq<Block>, i: nat, n: nat, p: nat)
    requires Tiled(bs, HEADER, START, p) && Chain(w, bs, p) && i < |bs| && n + HEADER <= bs[i].size
    ensures bs[i].off + 5 < |w| && Chain(CutWords(w, bs[i].off, bs[i].off + HEADER + n), CutBlocks(bs, i, n), p)
    ensures w[bs[i].off + 2] == NextOff(bs, i, p) && bs[i].off + HEADER + n + HEADER <= NextOff(bs, i, p) <= p
  {
    hide Tiled, CutWords, LinkAt;
    var r, h, x := CutBlocks(bs, i, n), bs[i].off, bs[i].off + HEADER + n;
    CutGeometry(w, bs, i, n, p);
    CutWordsAt(w, h, x);
    var w1 := CutWords(w, h, x);
    forall k | 0 <= k < |r|
      ensures BlockAt(w1, r, k, p)
    {
      CutBlockAt(w, w1, bs, i, n, p, k);
    }
    CutTailAt(w, w1, bs, i, n, p);
  }

  lemma CutGeometry(w: seq<int>, bs: seq<Block>, i: nat, n: nat, p: nat)
    requires Tiled(bs, HEADER, START, p) && Chain(w, bs, p) && i < |bs| && n + HEADER <= bs[i].size
    ensures var h, x := bs[i].off, bs[i].off + HEADER + n;
      h + 5 < |w| && w[h + 2] == NextOff(bs, i, p) && x + HEADER <= NextOff(bs, i, p) <= p && |w| == p + HEADER
  {
    assert BlockAt(w, bs, i, p);
    EndBound(bs, HEADER, START, p, i);
    assert NextOff(bs, i, p) == bs[i].off + HEADER + bs[i].size;
  }

  /** w1 differs from w as a cut does. */
  ghost predicate CutAs(w: seq<int>, w1: seq<int>, h: nat, x: nat, next: nat) {
    && |w1| == |w| && h + HEADER <= x && x + HEADER <= next && next + 5 < |w|
    && w1[x] == FREE_WORD && w1[x + 1] == HEAP && w1[x + 2] == next && w1[x + 3] == h
    && w1[next + 3] == x && w1[h + 2] == x
    && forall k {:trigger w1[k]} :: 0 <= k < |w| && !(x <= k < x + 4) && k != next + 3 && k != h + 2 ==> w1[k] == w[k]
  }

  lemma CutBlockAt(w: seq<int>, w1: seq<int>, bs: seq<Block>, i: nat, n: nat, p: nat, k: nat)
    requires Tiled(bs, HEADER, START, p) && Chain(w, bs, p) && i < |bs| && n + HEADER <= bs[i].size && k <= |bs|
    requires CutAs(w, w1, bs[i].off, bs[i].off + HEADER + n, NextOff(bs, i, p))
    ensures BlockAt(w1, CutBlocks(bs, i, n), k, p)
  {
    var r := CutBlocks(bs, i, n);
    var j := if k <= i then k else k - 1;
    assert BlockAt(w, bs, j, p) && BlockAt(w, bs, i, p);
    assert NextOff(bs, i, p) == bs[i].off + HEADER + bs[i].size;
    EndBound(bs, HEADER, START, p, j);
    if j < i { Ordered(bs, HEADER, START, p, j, i); }
    if i < j {
      Ordered(bs, HEADER, START, p, i, j);
      if i + 1 < j { Ordered(bs, HEADER, START, p, i + 1, j); }
      assert NextOff(r, k, p) == NextOff(bs, j, p);
    }
  }

  lemma CutTailAt(w: seq<int>, w1: seq<int>, bs: seq<Block>, i: nat, n: nat, p: nat)
    requires Tiled(bs, HEADER, START, p) && Chain(w, bs, p) && i < |bs| && n + HEADER <= bs[i].size
    requires CutAs(w, w1, bs[i].off, bs[i].off + HEADER + n, NextOff(bs, i, p))
    ensures var r := CutBlocks(bs, i, n); LinkAt(w1, p, true, START, PrevOff(r, |r|, p))
  {
    EndBound(bs, HEADER, START, p, i);
    if i + 1 < |bs| { EndBound(bs, HEADER, START, p, i + 1); }
  }

  /** The address words a cut changes are header words of the result. */
  lemma CutFrame(w: seq<int>, bs: seq<Block>, i: nat, n: nat, p: nat)
    requires Tiled(bs, HEADER, START, p) && Chain(w, bs, p) && i < |bs| && n + HEADER <= bs[i].size
    ensures var h, x := bs[i].off, bs[i].off + HEADER + n; var r := Split(bs, i, n, HEADER);
      && h + 5 < |w| && x in Heads(r, p) && Heads(r, p) == Heads(bs, p) + {x} && x !in Heads(bs, p)
      && Framed(w, CutWords(w, h, x), Heads(r, p)) && AgreeFree(w, CutWords(w, h, x), Heads(bs, p))
  {
    hide Tiled, LinkAt, Framed, AgreeFree, Heads, CutWords;
    var h, x, r := bs[i].off, bs[i].off + HEADER + n, Split(bs, i, n, HEADER);
    CutGeometry(w, bs, i, n, p);
    CutWordsAt(w, h, x);
    SplitKeeps(bs, i, n, HEADER, START, p);
    HeadsApart(r, p);
    SplitHeads(bs, i, n, p);
    CutFramed(w, CutWords(w, h, x), h, x, NextOff(bs, i, p), Heads(bs, p));
  }

  lemma SplitHeads(bs: seq<Block>, i: nat, n: nat, p: nat)
    requires Tiled(bs, HEADER, START, p) && i < |bs| && n + HEADER <= bs[i].size
    ensures var x := bs[i].off + HEADER + n;
        Heads(Split(bs, i, n, HEADER), p) == Heads(bs, p) + {x} && x !in Heads(bs, p)
    ensures bs[i].off in Heads(bs, p) && NextOff(bs, i, p) in Heads(bs, p)
  {
    var r, x := Split(bs, i, n, HEADER), bs[i].off + HEADER + n;
    EndBound(bs, HEADER, START, p, i);
    assert r[i + 1].off == x && r[i].off == bs[i].off;
    forall k | 0 <= k < |bs|
      ensures bs[k].off in Heads(r, p) && bs[k].off != x
    {
      if k <= i {
        assert r[k].off == bs[k].off;
      } else {
        assert r[k + 1].off == bs[k].off;
        Ordered(bs, HEADER, START, p, i, k);
      }
      if k < i { Ordered(bs, HEADER, START, p, k, i); }
    }
    forall k | 0 <= k < |r|
      ensures r[k].off in Heads(bs, p) + {x}
    {
      if k <= i { assert r[k].off == bs[k].off; } else if k > i + 1 { assert r[k].off == bs[k - 1].off; }
    }
    StartBound(bs, HEADER, START, p, i);
  }

  lemma CutFramed(w: seq<int>, w1: seq<int>, h: nat, x: nat, next: nat, heads: set<nat>)
    requires CutAs(w, w1, h, x, next) && Apart(heads + {x}) && h in heads && next in heads && x !in heads
    ensures Framed(w, w1, heads + {x}) && AgreeFree(w, w1, heads)
  {
    var all := heads + {x};
    assert h in all && next in all && x in all;
    forall k | 0 <= k < |w| && !Covered(all, k)
      ensures w1[k] == w[k]
    {
    }
    forall g | g in heads && g + 5 < |w|
      ensures w1[g + 4] == w[g + 4] && w1[g + 5] == w[g + 5]
    {
      assert g in all && g != x;
      if g < x { assert g + HEADER <= x; } else { assert x + HEADER <= g; }
      if g < next { assert g + HEADER <= next; }
      if next < g { assert next + HEADER <= g; }
      if g < h { assert g + HEADER <= h; }
      if h < g { assert h + HEADER <= g; }
    }
  }

  lemma CutShape(bs: seq<Block>, i: nat, n: nat, p: nat, fl: seq<nat>, w: seq<int>)
    requires Tiled(bs, HEADER, START, p) && i < |bs| && n + HEADER <= bs[i].size && RingIn(fl, Heads(bs, p))
        && |w| == p + HEADER
    ensures var r, x := CutBlocks(bs, i, n), bs[i].off + HEADER + n;
      && Tiled(r, HEADER, START, p) && Heads(r, p) == Heads(bs, p) + {x} == Heads(Split(bs, i, n, HEADER), p)
      && RingIn(fl, Heads(r, p)) && Apart(Heads(r, p)) && InMemory(Heads(r, p), w)
      && x !in fl && x != 0
  {
    var s, r := Split(bs, i, n, HEADER), CutBlocks(bs, i, n);
    SplitKeeps(bs, i, n, HEADER, START, p);
    MarkKeeps(s, i, bs[i].used, HEADER, START, p);
    SplitHeads(bs, i, n, p);
    SameOffs(s, r, p);
    HeadsApart(r, p);
  }

  lemma SameLength(w: seq<int>, h: nat, x: nat)
    ensures h + 5 < |w| ==> |CutWords(w, h, x)| == |w|
    ensures 5 < |w| ==> |PushWords(w, x)| == |w|
  {
  }

  /** A block cut in two, and the second half put on the free list. */
  lemma Rebuilt(w: seq<int>, bs: seq<Block>, fl: seq<nat>, i: nat, n: nat, p: nat)
    requires Tiled(bs, HEADER, START, p) && Chain(w, bs, p) && Ring(w, fl) && RingIn(fl, Heads(bs, p))
        && |w| == p + HEADER
    requires i < |bs| && n + HEADER <= bs[i].size
    ensures var h, x := bs[i].off, bs[i].off + HEADER + n;
      h + 5 < |w| && var w2, r := PushWords(CutWords(w, h, x), x), CutBlocks(bs, i, n);
      && Tiled(r, HEADER, START, p) && Chain(w2, r, p) && Ring(w2, [x] + fl) && RingIn([x] + fl, Heads(r, p))
      && Apart(Heads(r, p)) && InMemory(Heads(r, p), w2) && Framed(w, w2, Heads(r, p))
  {
    hide Ring, Chain, Framed, AgreeFree, AgreeLinks, Apart, Heads, RingIn, Tiled, CutWords, PushWords;
    var h, x, r := bs[i].off, bs[i].off + HEADER + n, CutBlocks(bs, i, n);
    CutChain(w, bs, i, n, p);
    CutFrame(w, bs, i, n, p);
    CutShape(bs, i, n, p, fl, w);
    var w1 := CutWords(w, h, x);
    SameLength(w, h, x);
    SameLength(w1, h, x);
    RingFrame(w, w1, fl, Heads(bs, p));
    PushFrame(w1, fl, x, Heads(r, p));
    PushRing(w1, fl, x, Heads(r, p));
    var w2 := PushWords(w1, x);
    ChainFrame(w1, w2, r, p, Heads(r, p));
    AgreeJoin(w, w1, w2, Heads(r, p));
  }

  /** a->next = b->next; b->next->prev = a. */
  function MergeWords(w: seq<int>, a: nat, b: nat): seq<int>
    requires b + 5 < |w|
  {
    Put(Put(w, a + 2, w[b + 2]), w[b + 2] + 3, a)
  }

  lemma MergeChain(w: seq<int>, bs: seq<Block>, i: nat, p: nat)
    requires Tiled(bs, HEADER, START, p) && Chain(w, bs, p) && i + 1 < |bs|
    ensures bs[i + 1].off + 5 < |w| && w[bs[i + 1].off + 2] == NextOff(bs, i + 1, p) <= p
    ensures Chain(MergeWords(w, bs[i].off, bs[i + 1].off), Absorb(bs, i, HEADER), p)
  {
    hide Tiled, LinkAt, MergeWords;
    var r, a, b, next := Absorb(bs, i, HEADER), bs[i].off, bs[i + 1].off, NextOff(bs, i + 1, p);
    MergeGeometry(w, bs, i, p);
    var w1 := MergeWords(w, a, b);
    MergeWordsAt(w, a, b);
    forall k | 0 <= k < |r|
      ensures BlockAt(w1, r, k, p)
    {
      MergeBlockAt(w, w1, bs, i, p, k);
    }
    MergeTailAt(w, w1, bs, i, p);
  }

  lemma MergeGeometry(w: seq<int>, bs: seq<Block>, i: nat, p: nat)
    requires Tiled(bs, HEADER, START, p) && Chain(w, bs, p) && i + 1 < |bs|
    ensures var a, b, next := bs[i].off, bs[i + 1].off, NextOff(bs, i + 1, p);
      b + 5 < |w| && w[b + 2] == next && a + HEADER <= b && b + HEADER <= next <= p && |w| == p + HEADER
  {
    assert BlockAt(w, bs, i + 1, p);
    EndBound(bs, HEADER, START, p, i + 1);
    assert NextOff(bs, i + 1, p) == bs[i + 1].off + HEADER + bs[i + 1].size;
    Ordered(bs, HEADER, START, p, i, i + 1);
  }

  ghost predicate MergeAs(w: seq<int>, w1: seq<int>, a: nat, next: nat) {
    && |w1| == |w| && a + HEADER <= next && next + 5 < |w| && w1[a + 2] == next && w1[next + 3] == a
    && forall k {:trigger w1[k]} :: 0 <= k < |w| && k != a + 2 && k != next + 3 ==> w1[k] == w[k]
  }

  lemma MergeWordsAt(w: seq<int>, a: nat, b: nat)
    requires b + 5 < |w| && 0 <= w[b + 2] && a + HEADER <= w[b + 2] && w[b + 2] + 5 < |w|
    ensures MergeAs(w, MergeWords(w, a, b), a, w[b + 2])
  {
  }

  lemma MergeBlockAt(w: seq<int>, w1: seq<int>, bs: seq<Block>, i: nat, p: nat, k: nat)
    requires Tiled(bs, HEADER, START, p) && Chain(w, bs, p) && i + 1 < |bs| && k + 1 < |bs|
    requires MergeAs(w, w1, bs[i].off, NextOff(bs, i + 1, p))
    ensures BlockAt(w1, Absorb(bs, i, HEADER), k, p)
  {
    var r := Absorb(bs, i, HEADER);
    var j := if k <= i then k else k + 1;
    assert BlockAt(w, bs, j, p) && BlockAt(w, bs, i + 1, p);
    assert NextOff(bs, i + 1, p) == bs[i + 1].off + HEADER + bs[i + 1].size;
    EndBound(bs, HEADER, START, p, j);
    Ordered(bs, HEADER, START, p, i, i + 1);
    if j < i { Ordered(bs, HEADER, START, p, j, i); }
    if i < j {
      Ordered(bs, HEADER, START, p, i + 1, j);
      if i + 2 < j { Ordered(bs, HEADER, START, p, i + 2, j); }
      assert NextOff(r, k, p) == NextOff(bs, j, p);
    }
  }

  lemma MergeTailAt(w: seq<int>, w1: seq<int>, bs: seq<Block>, i: nat, p: nat)
    requires Tiled(bs, HEADER, START, p) && Chain(w, bs, p) && i + 1 < |bs|
    requires MergeAs(w, w1, bs[i].off, NextOff(bs, i + 1, p))
    ensures var r := Absorb(bs, i, HEADER); LinkAt(w1, p, true, START, PrevOff(r, |r|, p))
  {
    EndBound(bs, HEADER, START, p, i + 1);
    Ordered(bs, HEADER, START, p, i, i + 1);
    if i + 2 < |bs| { EndBound(bs, HEADER, START, p, i + 2); }
  }

  lemma MergeFrame(w: seq<int>, bs: seq<Block>, i: nat, p: nat, heads: set<nat>)
    requires Tiled(bs, HEADER, START, p) && Chain(w, bs, p) && i + 1 < |bs| && Apart(heads) && Heads(bs, p) <= heads
    ensures bs[i + 1].off + 5 < |w|
    ensures var w1 := MergeWords(w, bs[i].off, bs[i + 1].off); Framed(w, w1, heads) && AgreeFree(w, w1, heads)
    ensures Heads(Absorb(bs, i, HEADER), p) <= Heads(bs, p)
  {
    hide LinkAt, Framed, AgreeFree, Apart;
    MergeGeometry(w, bs, i, p);
    var a, b, next := bs[i].off, bs[i + 1].off, NextOff(bs, i + 1, p);
    assert a in Heads(bs, p) && next in Heads(bs, p);
    assert a in heads && next in heads;
    PutHead(w, a, 2, next, heads);
    var w1 := Put(w, a + 2, next);
    PutHead(w1, next, 3, a, heads);
    AgreeJoin(w, w1, Put(w1, next + 3, a), heads);
    var r := Absorb(bs, i, HEADER);
    forall k | 0 <= k < |r|
      ensures r[k].off in Heads(bs, p)
    {
      assert r[k].off == bs[if k <= i then k else k + 1].off;
    }
  }

  // ---------------------------------------------------------------- the used flag

  lemma MarkChain(w: seq<int>, bs: seq<Block>, i: nat, used: bool, p: nat)
    requires Tiled(bs, HEADER, START, p) && Chain(w, bs, p) && i < |bs|
    ensures bs[i].off + 5 < |w| && Chain(Put(w, bs[i].off, FlagWord(used)), Mark(bs, i, used), p)
    ensures Framed(w, Put(w, bs[i].off, FlagWord(used)), Heads(bs, p))
    ensures AgreeFree(w, Put(w, bs[i].off, FlagWord(used)), Heads(bs, p)) && Heads(Mark(bs, i, used), p) == Heads(bs, p)
  {
    hide Framed, AgreeFree;
    var w1, r := Put(w, bs[i].off, FlagWord(used)), Mark(bs, i, used);
    assert BlockAt(w, bs, i, p);
    HeadsApart(bs, p);
    assert bs[i].off in Heads(bs, p);
    PutHead(w, bs[i].off, 0, FlagWord(used), Heads(bs, p));
    EndBound(bs, HEADER, START, p, i);
    forall k | 0 <= k < |r|
      ensures BlockAt(w1, r, k, p)
    {
      assert BlockAt(w, bs, k, p);
      if k < i { Ordered(bs, HEADER, START, p, k, i); }
      if i < k { Ordered(bs, HEADER, START, p, i, k); }
    }
    SameOffs(bs, r, p);
  }

  lemma SameOffs(bs: seq<Block>, r: seq<Block>, p: nat)
    requires |r| == |bs| && forall k {:trigger r[k]} :: 0 <= k < |r| ==> r[k].off == bs[k].off
    ensures Heads(r, p) == Heads(bs, p)
  {
    forall k | 0 <= k < |bs|
      ensures bs[k].off in Heads(r, p)
    {
      assert r[k].off == bs[k].off;
    }
  }

  /** Listed blocks are headers, so a listed free list can be walked. */
  lemma ListedRing(bs: seq<Block>, fl: seq<nat>, p: nat)
    requires Tiled(bs, HEADER, START, p) && Listed(bs, fl)
    ensures RingIn(fl, Heads(bs, p))
  {
    forall i | 0 <= i < |fl|
      ensures fl[i] in Heads(bs, p) && fl[i] != 0
    {
      assert fl[i] in fl;
      StartBound(bs, HEADER, START, p, At(bs, fl[i]));
    }
  }

  /** The order in which a released block is merged with its neighbours does not
      matter. */
  lemma MergeOrder(bs: seq<Block>, i: nat)
    requires i < |bs| && !bs[i].used
    ensures var left := FreeLeft(bs, i);
      var b1 := if left then Absorb(bs, i - 1, HEADER) else bs;
      var j := if left then i - 1 else i;
      Coalesce(bs, i, HEADER) == (if FreeRight(bs, i) then Absorb(b1, j, HEADER) else b1)
  {
  }

  // ---------------------------------------------------------------- user data

  /** A write inside the data of a used block touches neither list. */
  lemma OverlayAgrees(w: seq<int>, bs: seq<Block>, j: nat, a: nat, xs: seq<int>, p: nat)
    requires Tiled(bs, HEADER, START, p) && j < |bs| && bs[j].used && |w| == p + HEADER
    requires bs[j].off + HEADER <= a && a + |xs| <= bs[j].off + HEADER + bs[j].size
    ensures a + |xs| <= |w| && AgreeLinks(w, Overlay(w, a, xs), Heads(bs, p))
        && AgreeFree(w, Overlay(w, a, xs), Heads(bs, p))
  {
    EndBound(bs, HEADER, START, p, j);
    var w1 := Overlay(w, a, xs);
    forall h | h in Heads(bs, p) && h + 5 < |w|
      ensures w1[h] == w[h] && w1[h + 1] == w[h + 1] && w1[h + 2] == w[h + 2] && w1[h + 3] == w[h + 3]
          && w1[h + 4] == w[h + 4] && w1[h + 5] == w[h + 5]
    {
      HeadNotOverlaid(bs, j, p, h, a, |xs|);
    }
  }

  lemma HeadNotOverlaid(bs: seq<Block>, j: nat, p: nat, h: nat, a: nat, n: nat)
    requires Tiled(bs, HEADER, START, p) && j < |bs| && bs[j].used && h in Heads(bs, p)
    requires bs[j].off + HEADER <= a && a + n <= bs[j].off + HEADER + bs[j].size
    ensures h + HEADER <= a || a + n <= h
  {
    HeadsApart(bs, p);
    EndBound(bs, HEADER, START, p, j);
    assert bs[j].off in Heads(bs, p);
    if h < bs[j].off { assert h + HEADER <= bs[j].off; }
    if bs[j].off < h {
      if h != p {
        var k :| 0 <= k < |bs| && bs[k].off == h;
        if k < j { Ordered(bs, HEADER, START, p, k, j); } else { Ordered(bs, HEADER, START, p, j, k); }
      }
    }
  }

  // ---------------------------------------------------------------- growing in place

  /** The writes that grow the block at h over the free block behind it, whose header
      moves to x. */
  function GrowWords(w: seq<int>, h: nat, x: nat): seq<int>
    requires h + 5 < |w| && 0 <= w[h + 2] && w[h + 2] + 5 < |w|
  {
    PushWords(CutWords(MergeWords(UnlinkWords(w, w[h + 2]), h, w[h + 2]), h, x), x)
  }
}
