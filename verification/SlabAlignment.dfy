/** rt-thread/src/slab.c: how large and how aligned what rt_malloc returns is. */
module SlabAlignment {
  import opened Bits
  import opened Common
  import opened SlabPageSpec
  import opened SlabZoneSpec
  import opened SlabUsage
  import opened SlabSpec
  import opened SlabTheorems

  // ---------------------------------------------------------------- size

  /** The zone a small allocation came from. */
  lemma ChunkSource(s: State, zp: nat, i: nat)
    requires Inv(s, zp) && i < NZONES && s.lists[i] != []
    ensures var (s1, a) := MallocChunk(s, zp, i); var p := s.lists[i][0];
      Inv(s1, zp) && p in s1.zones && Busy(s1.zones[p], a) && s1.zones[p].chunk == ChunkOf(i)
  {
    hide Inv, Busy;
    InvPages(s, zp);
    ChunkKeeps(s, zp, i);
    HeadZone(s, zp, i);
    var p := s.lists[i][0];
    TakeBusy(s.zones[p], p, zp, MallocChunk(s, zp, i).1);
  }

  lemma NewSource(s: State, zp: nat, size: nat)
    requires Inv(s, zp) && 0 < size < ZoneLimit(zp) && GetZone(s, zp).1.Some?
    ensures var (i, c) := ZoneIndex(size); var (s1, q) := GetZone(s, zp);
      && 0 <= i < |s1.lists| && c > 0
      && var s2, a, p := SetUp(s1, zp, q.value, i, c), q.value * PAGE + FirstChunk(c), q.value;
      Inv(s2, zp) && p in s2.zones && Busy(s2.zones[p], a) && s2.zones[p].chunk == c
  {
    hide Inv, Busy, GetZone, ZoneIndex;
    InvPages(s, zp);
    SetUpKeeps(s, zp, size);
    NewZoneOk(GetZone(s, zp).1.value, zp, size);
  }

  lemma PagesCover(size: nat)
    requires size < WORD_RANGE
    ensures PagesFor(size) > 0 ==> PagesFor(size) * PAGE >= size
  {
    if size + PAGE - 1 < WORD_RANGE {
      assert (size + PAGE - 1) % WORD_RANGE == size + PAGE - 1;
    } else {
      assert (size + PAGE - 1) % WORD_RANGE == size + PAGE - 1 - WORD_RANGE;
    }
  }

  lemma LargeCovers(s: State, zp: nat, size: nat, b: nat)
    requires Inv(s, zp) && size < WORD_RANGE && MallocLarge(s, PagesFor(size)).1.Some?
    ensures var (s1, a) := MallocLarge(s, PagesFor(size));
        a.value % PAGE == 0 && (a.value <= b < a.value + size ==> Owns(s1, a.value, b))
  {
    hide Inv, LiveSmall, Live;
    PagesCover(size);
    MallocLargeLive(s, zp, PagesFor(size), b);
  }

  // ---------------------------------------------------------------- alignment

  function FirstOf(runs: seq<PageRun>, n: nat): nat {
    var p := Take(runs, n).1;
    if p.None? then 0 else p.value
  }

  /** The first of the pages a request will be served from, as the state before the call
      tells: those of a run, or of the zone that is next in line. */
  function SourcePage(s: State, zp: nat, size: nat): nat
    requires |s.lists| == NZONES && ZonePages(zp) && size > 0
  {
    if size >= ZoneLimit(zp) then FirstOf(s.runs, PagesFor(size))
    else
      LimitBound(zp, size);
      ZoneIndexIs(size);
      var list := s.lists[ZoneIndex(size).0];
      if list != [] then list[0] else if s.zoneFree != [] then s.zoneFree[0] else FirstOf(s.runs, zp)
  }

  /** A small request is served by a chunk of its source zone. */
  lemma FromSource(s: State, zp: nat, size: nat)
    requires Inv(s, zp) && 0 < size < ZoneLimit(zp) && Malloc(s, zp, size).1.Some?
    ensures |s.lists| == NZONES && ZonePages(zp)
    ensures var (s1, a) := Malloc(s, zp, size); var p := SourcePage(s, zp, size);
      Inv(s1, zp) && p in s1.zones && Busy(s1.zones[p], a.value) && s1.zones[p].chunk == ZoneIndex(size).1 >= size
  {
    hide Inv, Busy, ZoneIndex, ChunkOf, MallocChunk, SetUp, MarkZone;
    InvPages(s, zp);
    LimitBound(zp, size);
    ZoneIndexIs(size);
    var i := ZoneIndex(size).0;
    if s.lists[i] != [] { ChunkSource(s, zp, i); } else { NewSource(s, zp, size); }
  }

  /** What rt_malloc returns has at least the size asked for, whether it is a chunk or
      pages, even when rounding the size up wraps. */
  lemma MallocCovers(s: State, zp: nat, size: nat, b: nat)
    requires Inv(s, zp) && size < WORD_RANGE && Malloc(s, zp, size).1.Some?
    ensures var (s1, a) := Malloc(s, zp, size); a.value <= b < a.value + size ==> Owns(s1, a.value, b)
  {
    hide Inv, Busy, LiveLarge, MallocLarge, PagesFor, ZoneIndex;
    if size >= ZoneLimit(zp) {
      LargeCovers(s, zp, size, b);
    } else {
      FromSource(s, zp, size);
      var p := SourcePage(s, zp, size);
      var (s1, a) := Malloc(s, zp, size);
      LargeOrSmall(s1, zp, p, a.value);
      OwnsChunk(s1, p, a.value, b);
    }
  }

  lemma OwnsChunk(s: State, p: nat, a: nat, b: nat)
    requires p in s.zones && Busy(s.zones[p], a) && !LiveLarge(s, a)
    ensures a <= b < a + s.zones[p].chunk ==> Owns(s, a, b)
  {
  }

  lemma Units()
    ensures TwoPower(8) && TwoPower(16) && TwoPower(32) && TwoPower(64) && TwoPower(128) && TwoPower(256)
        && TwoPower(512) && TwoPower(1024)
    ensures TwoPower(PAGE) && TwoPower(2 * PAGE)
  {
    assert TwoPower(1) && TwoPower(2) && TwoPower(4);
    assert TwoPower(2048);
  }

  lemma RoundedIs(n: nat, u: nat, q: nat)
    requires u > 0 && n == u * q
    ensures RoundUp(n, u) == n
  {
    Rounded(n, u);
    var k := (n + u - 1) / u;
    Scaled(u, q + 1, k);
    Scaled(u, k, q - 1);
  }

  lemma PowerRounded(n: nat, u: nat)
    requires TwoPower(n) && TwoPower(u) && u <= n
    ensures RoundUp(n, u) == n
  {
    var q := PowerMultiple(n, u);
    RoundedIs(n, u, q);
  }

  /** A power of two from eight bytes on gets chunks of just its size. */
  lemma PowerServed(n: nat)
    requires TwoPower(n) && 8 <= n < 16384
    ensures ZoneIndex(n).1 == n
  {
    hide RoundUp, TwoPower;
    Units();
    PowerRounded(n, if n < 128 then 8 else if n < 256 then 16 else if n < 512 then 32 else if n < 1024 then 64
      else if n < 2048 then 128 else if n < 4096 then 256 else if n < 8192 then 512 else 1024);
  }

  /** The chunks of a power of two: as large as the request, or eight bytes. */
  lemma ChunkMultiple(n: nat) returns (m: nat)
    requires TwoPower(n) && n < 16384
    ensures TwoPower(ZoneIndex(n).1) && ZoneIndex(n).1 == n * m
  {
    Units();
    if n >= 8 {
      PowerServed(n);
      m := 1;
    } else {
      assert RoundUp(n, 8) == 8;
      m := PowerMultiple(8, n);
    }
  }

  /** Chunks of a power of two start whole chunks behind the zone's first byte. */
  lemma ChunkPlace(z: Zone, p: nat, zp: nat, k: nat) returns (q: nat)
    requires ZoneOk(z, p, zp) && TwoPower(z.chunk)
    ensures ChunkAt(z, k) == p * PAGE + z.chunk * q
  {
    hide FirstChunk, TwoPower, ChunkAt;
    FilledIff(z.chunk);
    FirstChunkIs(z.chunk);
    ChunkProduct(z, k);
    q := Together(z.chunk, FirstChunk(z.chunk), (ZONE_HEADER + z.chunk - 1) / z.chunk, k);
  }

  lemma Together(c: nat, f: nat, x: nat, k: nat) returns (q: nat)
    requires f == c * x
    ensures f + k * c == c * q
  {
    q := x + k;
  }

  /** a lies m * q times the size behind the start of a page. */
  lemma SameRest(h: nat, start: nat, a: nat, size: nat, c: nat, m: nat, q: nat)
    requires size > 0 && c == size * m && a == start + c * q
    ensures (h + a) % size == (h + start) % size
  {
    assert c * q == size * (m * q);
    Offset(h + start, size, m * q);
  }

  lemma BusyPlace(s: State, zp: nat, p: nat, a: nat) returns (q: nat)
    requires Inv(s, zp) && p in s.zones && Busy(s.zones[p], a) && TwoPower(s.zones[p].chunk)
    ensures a == p * PAGE + s.zones[p].chunk * q
  {
    var z := s.zones[p];
    ZoneRight(s, zp, p);
    var k: nat :| k <= z.uindex && a == ChunkAt(z, k);
    q := ChunkPlace(z, p, zp, k);
  }

  /** The source promises that a request for a power of two is aligned to it. It is,
      chunk or pages, if and only if the first page it is served from is: heapStart is
      heap_start, and what rt_malloc returns is the address heapStart + a. */
  lemma AlignedIff(s: State, zp: nat, heapStart: nat, size: nat)
    requires Inv(s, zp) && TwoPower(size) && Malloc(s, zp, size).1.Some?
    ensures |s.lists| == NZONES && ZonePages(zp)
    ensures var a := Malloc(s, zp, size).1.value;
      (heapStart + a) % size == 0 <==> (heapStart + SourcePage(s, zp, size) * PAGE) % size == 0
  {
    InvPages(s, zp);
    if size < ZoneLimit(zp) { SmallAligned(s, zp, heapStart, size); } else { LargeSource(s, zp, size); }
  }

  lemma LargeSource(s: State, zp: nat, size: nat)
    requires Inv(s, zp) && size > 0 && size >= ZoneLimit(zp) && Malloc(s, zp, size).1.Some?
    ensures |s.lists| == NZONES && ZonePages(zp)
    ensures Malloc(s, zp, size).1.value == SourcePage(s, zp, size) * PAGE
  {
    hide ZoneIndex, PagesFor;
    InvPages(s, zp);
  }

  lemma SmallAligned(s: State, zp: nat, heapStart: nat, size: nat)
    requires Inv(s, zp) && TwoPower(size) && size < ZoneLimit(zp) && Malloc(s, zp, size).1.Some?
    ensures |s.lists| == NZONES && ZonePages(zp)
    ensures (heapStart + Malloc(s, zp, size).1.value) % size == (heapStart + SourcePage(s, zp, size) * PAGE) % size
  {
    hide Inv, Busy, TwoPower, ZoneIndex, Malloc, SourcePage;
    InvPages(s, zp);
    PowerPositive(size);
    LimitBound(zp, size);
    FromSource(s, zp, size);
    var (s1, a) := Malloc(s, zp, size);
    var p := SourcePage(s, zp, size);
    var m := ChunkMultiple(size);
    var q := BusyPlace(s1, zp, p, a.value);
    SameRest(heapStart, p * PAGE, a.value, size, s1.zones[p].chunk, m, q);
  }

  lemma PowerPositive(n: nat)
    requires TwoPower(n)
    ensures n > 0
  {
  }

  /** So up to a page it always is. */
  lemma PowerOfTwoAligned(s: State, zp: nat, heapStart: nat, size: nat)
    requires Inv(s, zp) && TwoPower(size) && size <= PAGE && heapStart % PAGE == 0 && Malloc(s, zp, size).1.Some?
    ensures (heapStart + Malloc(s, zp, size).1.value) % size == 0
  {
    hide Inv, Malloc, TwoPower, SourcePage;
    PowerPositive(size);
    AlignedIff(s, zp, heapStart, size);
    Units();
    var m := PowerMultiple(PAGE, size);
    PagesDivide(size, m, heapStart / PAGE + SourcePage(s, zp, size));
  }

  lemma PagesDivide(size: nat, m: nat, k: nat)
    requires size > 0 && PAGE == size * m
    ensures k * PAGE % size == 0
  {
    assert k * PAGE == size * (m * k);
    Offset(0, size, m * k);
  }

  // ---------------------------------------------------------------- misaligned answers

  /** Beyond a page it may not be. On a heap of 17 pages, which rt_system_heap_init gives
      zones of 32 KB and a page table of one page, a request for 8192 bytes is served
      with pages, from page 1 on: misaligned if heap_start is a multiple of 8192. */
  lemma PagesMisaligned(heapStart: nat)
    requires heapStart % 8192 == 0
    ensures var s, zp := Booted(17), ZonePagesFor(17 * PAGE);
      Inv(s, zp) && Malloc(s, zp, 8192).1 == Some(PAGE) && (heapStart + PAGE) % 8192 != 0
  {
    hide Inv;
    InitialKeeps(17, 1, 8);
    assert UsagePages(17) == 1 && ZonePagesFor(17 * PAGE) == 8 && PagesFor(8192) == 2;
    assert FindRun([PageRun(0, 17)], 1, 0) == 0;
    assert FindRun([PageRun(1, 16)], 2, 0) == 0;
  }

  /** On one of 16385 pages, with zones of 64 KB and a page table of 17 pages, it is
      served with a chunk of the zone at page 17. */
  lemma ChunkMisaligned(heapStart: nat)
    requires heapStart % 8192 == 0
    ensures var s, zp := Booted(16385), ZonePagesFor(16385 * PAGE);
      Inv(s, zp) && Malloc(s, zp, 8192).1 == Some(17 * PAGE + 8192) && (heapStart + 17 * PAGE + 8192) % 8192 != 0
  {
    hide Inv, GetZone, FirstChunk, Initial, ZoneIndex;
    assert UsagePages(16385) == 17 && ZonePagesFor(16385 * PAGE) == 16;
    InitialKeeps(16385, 17, 16);
    FirstZone();
    IndexOfTwoPages();
    assert heapStart + 17 * PAGE + 8192 == heapStart + 8192 * 9 + 4096;
  }

  lemma IndexOfTwoPages()
    ensures ZoneIndex(8192) == (63, 8192) && FirstChunk(8192) == 8192
  {
    Units();
    FilledIff(8192);
    FirstChunkIs(8192);
  }

  lemma FirstZone()
    ensures var s := Initial(16385, 17); |s.lists| == NZONES && s.lists[63] == [] && GetZone(s, 16).1 == Some(17)
  {
    assert FindRun([PageRun(0, 16385)], 17, 0) == 0;
    assert FindRun([PageRun(17, 16368)], 16, 0) == 0;
  }
}
