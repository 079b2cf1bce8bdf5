/** rt-thread/src/slab.c: rt_free, and what holds over whole runs. */
module SlabTheorems {
  import opened Common
  import opened Lists
  import opened SlabPageSpec
  import opened SlabZoneSpec
  import opened SlabUsage
  import opened SlabSpec

  // ---------------------------------------------------------------- rt_free keeps the invariant

  lemma FreeLargeKeeps(s: State, zp: nat, a: nat)
    requires Inv(s, zp) && LiveLarge(s, a)
    ensures Inv(FreeLarge(s, PageOf(a)), zp)
  {
    hide PagesOk, ArrayOk, AllZonesOk;
    LargeGiven(s.usage, s.runs, ZoneSet(s.zones, s.zoneFree), zp, PageOf(a));
  }

  lemma FreeChunkKeeps(s: State, zp: nat, p: nat, a: nat)
    requires Inv(s, zp) && p in s.zones && Busy(s.zones[p], a)
    ensures s.zones[p].index < |s.lists| && Inv(FreeChunk(s, p, a), zp)
  {
    hide PagesOk, ArrayOk;
    InvPages(s, zp);
    var z := s.zones[p];
    assert ZoneOk(z, p, zp);
    GiveOk(z, p, zp, a);
    var z1 := ZoneGive(z, a);
    var zones1 := s.zones[p := z1];
    assert ZoneSet(zones1, s.zoneFree) == ZoneSet(s.zones, s.zoneFree);
    if z.nfree == 0 { OnList(s.lists, s.zones, p, z1); } else { SameLists(s.lists, s.zones, p, z1); }
  }

  lemma RetireKeeps(s: State, zp: nat, p: nat)
    requires Inv(s, zp) && p in s.zones
    ensures s.zones[p].index < |s.lists| && Inv(Retire(s, zp, p), zp)
  {
    hide PagesOk, ArrayOk;
    InvPages(s, zp);
    var z := s.zones[p];
    assert ZoneOk(z, p, zp);
    var zones1 := s.zones - {p};
    OffList(s.lists, s.zones, zones1, p);
    assert p !in s.zoneFree;
    if s.freeCnt + 1 > RELEASE_THRESH {
      ZoneGiven(s.usage, s.runs, ZoneSet(s.zones, s.zoneFree), zp, p);
      assert ZoneSet(zones1, s.zoneFree) == ZoneSet(s.zones, s.zoneFree) - {p};
    } else {
      InsertMembers(s.zoneFree, p, 0);
      assert Insert(s.zoneFree, p, 0) == [p] + s.zoneFree;
      assert ZoneSet(zones1, [p] + s.zoneFree) == ZoneSet(s.zones, s.zoneFree);
    }
  }

  /** The zone the code computes for a live chunk. */
  lemma ZoneOfLive(s: State, zp: nat, a: nat) returns (p: nat)
    requires Inv(s, zp) && Live(s, a) && !LiveLarge(s, a)
    ensures PageOf(a) < |s.usage| && s.usage[PageOf(a)].SmallPage? && p + s.usage[PageOf(a)].off == PageOf(a)
    ensures p in s.zones && Busy(s.zones[p], a)
  {
    p :| p in s.zones && InZone(s, a, p) && Busy(s.zones[p], a);
  }

  lemma FreeKeeps(s: State, zp: nat, a: nat)
    requires Inv(s, zp) && Live(s, a)
    ensures Inv(FreeAddr(s, zp, a), zp)
  {
    hide FreeLarge, Retire;
    if LiveLarge(s, a) {
      FreeLargeKeeps(s, zp, a);
    } else {
      var p := ZoneOfLive(s, zp, a);
      FreeChunkKeeps(s, zp, p, a);
      RetireKeeps(FreeChunk(s, p, a), zp, p);
    }
  }

  // ---------------------------------------------------------------- what malloc and free do to the live set

  lemma LargeUnchanged(s: State, s1: State, a: nat)
    requires |s1.usage| == |s.usage|
    requires PageOf(a) < |s.usage| ==> var u, u1 := s.usage[PageOf(a)], s1.usage[PageOf(a)];
      (u1.LargePage? && u1.pages > 0 <==> u.LargePage? && u.pages > 0)
    ensures LiveLarge(s1, a) <==> LiveLarge(s, a)
  {
  }

  lemma SmallUnchanged(s: State, s1: State, zp: nat, a: nat)
    requires Inv(s, zp) && Inv(s1, zp) && s1.zones == s.zones
    ensures LiveSmall(s1, a) <==> LiveSmall(s, a)
  {
    LiveSmallIff(s, zp, a);
    LiveSmallIff(s1, zp, a);
    hide Inv;
  }

  lemma MallocLargeLive(s: State, zp: nat, n: nat, b: nat)
    requires Inv(s, zp) && MallocLarge(s, n).1.Some?
    ensures var (s1, a) := MallocLarge(s, n);
      (Live(s1, b) <==> Live(s, b) || b == a.value) && !Live(s, a.value) && LiveLarge(s1, a.value)
          && s1.usage[PageOf(a.value)].pages == n
  {
    hide ArrayOk, AllZonesOk, LiveSmall;
    var (s1, o) := MallocLarge(s, n);
    var p := Take(s.runs, n).1.value;
    LargeKeeps(s, zp, n);
    FreshPages(s.usage, s.runs, ZoneSet(s.zones, s.zoneFree), zp, n);
    SmallUnchanged(s, s1, zp, b);
    assert PageOf(p * PAGE) == p;
    assert !InUse(s.usage[p]);
    SmallNeedsPage(s, zp, p * PAGE);
  }

  lemma SmallNeedsPage(s: State, zp: nat, a: nat)
    ensures LiveSmall(s, a) ==> PageOf(a) < |s.usage| && s.usage[PageOf(a)].SmallPage?
  {
  }

  /** Only the busy chunks of zone p change, and large blocks not at all. */
  lemma LiveByZone(s: State, s1: State, zp: nat, p: nat, b: nat)
    requires Inv(s, zp) && Inv(s1, zp)
    requires forall q: nat {:trigger q in s1.zones} ::
        q != p ==> (q in s1.zones <==> q in s.zones) && (q in s.zones ==> s1.zones[q] == s.zones[q])
    requires LiveLarge(s1, b) <==> LiveLarge(s, b)
    ensures var was, now := p in s.zones && Busy(s.zones[p], b), p in s1.zones && Busy(s1.zones[p], b);
      && (now ==> Live(s1, b)) && (was ==> Live(s, b))
      && (!was && !now ==> (Live(s1, b) <==> Live(s, b)))
      && (was && !now ==> !LiveSmall(s1, b))
      && (now && !was ==> !LiveSmall(s, b))
  {
    LiveSmallIff(s, zp, b);
    LiveSmallIff(s1, zp, b);
    if p in s.zones && Busy(s.zones[p], b) {
      forall q: nat | q in s1.zones && q != p
        ensures !Busy(s1.zones[q], b)
      {
        if Busy(s.zones[q], b) { BusyInOne(s, zp, p, q, b); }
      }
    }
    if p in s1.zones && Busy(s1.zones[p], b) {
      forall q: nat | q in s.zones && q != p
        ensures !Busy(s.zones[q], b)
      {
        if Busy(s.zones[q], b) { BusyInOne(s1, zp, p, q, b); }
      }
    }
    if !(p in s.zones && Busy(s.zones[p], b)) && !(p in s1.zones && Busy(s1.zones[p], b)) {
      BusyElsewhere(s.zones, s1.zones, p, b);
    }
  }

  lemma BusyElsewhere(zones: map<nat, Zone>, zones1: map<nat, Zone>, p: nat, b: nat)
    requires forall q: nat {:trigger q in zones1} ::
        q != p ==> (q in zones1 <==> q in zones) && (q in zones ==> zones1[q] == zones[q])
    requires p in zones ==> !Busy(zones[p], b)
    requires p in zones1 ==> !Busy(zones1[p], b)
    ensures (exists q: nat {:trigger zones[q]} :: q in zones && Busy(zones[q], b))
        <==> (exists q: nat {:trigger zones1[q]} :: q in zones1 && Busy(zones1[q], b))
  {
    hide Busy;
    if q: nat :| q in zones && Busy(zones[q], b) { assert q in zones1 && zones1[q] == zones[q]; }
  }

  /** No address is a large block and a chunk at once. */
  lemma LargeOrSmall(s: State, zp: nat, p: nat, a: nat)
    requires Inv(s, zp) && p in s.zones && Busy(s.zones[p], a)
    ensures !LiveLarge(s, a)
  {
    BusyIsLive(s, zp, p, a);
  }

  lemma MallocChunkLive(s: State, zp: nat, i: nat, b: nat)
    requires Inv(s, zp) && i < NZONES && s.lists[i] != []
    ensures var (s1, a) := MallocChunk(s, zp, i); (Live(s1, b) <==> Live(s, b) || b == a) && !Live(s, a)
  {
    hide Inv, ZoneOk, Busy, LiveSmall;
    ChunkKeeps(s, zp, i);
    HeadZone(s, zp, i);
    InvPages(s, zp);
    var p := s.lists[i][0];
    var (s1, a) := MallocChunk(s, zp, i);
    TakeBusy(s.zones[p], p, zp, b);
    TakeBusy(s.zones[p], p, zp, a);
    assert s1.zones[p] == ZoneTake(s.zones[p]).0 && Busy(s1.zones[p], a);
    LiveByZone(s, s1, zp, p, b);
    LiveByZone(s, s1, zp, p, a);
    LargeOrSmall(s1, zp, p, a);
  }

  lemma SetUpLive(s: State, zp: nat, size: nat, b: nat)
    requires Inv(s, zp) && 0 < size < ZoneLimit(zp) && GetZone(s, zp).1.Some?
    ensures var (i, c) := ZoneIndex(size); var (s1, q) := GetZone(s, zp);
      && 0 <= i < |s1.lists| && c > 0
      && var s2, a := SetUp(s1, zp, q.value, i, c), q.value * PAGE + FirstChunk(c);
      (Live(s2, b) <==> Live(s, b) || b == a) && !Live(s, a)
  {
    hide Inv, ZoneOk, Busy, LiveSmall, LiveLarge, GetZone, ZoneIndex, NewZone, FirstChunk;
    SetUpKeeps(s, zp, size);
    GotZone(s, zp);
    InvPages(s, zp);
    var (i, c) := ZoneIndex(size);
    var (s1, q) := GetZone(s, zp);
    var p := q.value;
    var s2, a := SetUp(s1, zp, p, i, c), p * PAGE + FirstChunk(c);
    NewZoneOk(p, zp, size);
    NewZoneBusy(p, zp, i, c, b);
    NewZoneBusy(p, zp, i, c, a);
    GotLarge(s, zp, b);
    GotLarge(s, zp, a);
    LargeUnchanged(s1, s2, b);
    LargeUnchanged(s1, s2, a);
    LiveByZone(s, s2, zp, p, b);
    LiveByZone(s, s2, zp, p, a);
    LargeOrSmall(s2, zp, p, a);
  }

  /** A new zone has just its first chunk in use. */
  lemma NewZoneBusy(p: nat, zp: nat, i: nat, c: nat, b: nat)
    requires c > 0
    ensures Busy(NewZone(p, zp, i, c), b) <==> b == p * PAGE + FirstChunk(c)
  {
    var z := NewZone(p, zp, i, c);
    assert ChunkAt(z, 0) == z.base;
    forall k: nat | k <= z.uindex
      ensures ChunkAt(z, k) == z.base
    {
    }
  }

  /** Getting a zone touches no large block. */
  lemma GotLarge(s: State, zp: nat, a: nat)
    requires Inv(s, zp) && GetZone(s, zp).1.Some?
    ensures LiveLarge(GetZone(s, zp).0, a) <==> LiveLarge(s, a)
  {
    hide ArrayOk, AllZonesOk, PagesOk;
    if s.zoneFree == [] {
      FreshPages(s.usage, s.runs, ZoneSet(s.zones, s.zoneFree), zp, zp);
      var i := PageOf(a);
      if i < |s.usage| { assert s.usage[i] == s.usage[i]; }
    }
  }

  /** rt_malloc adds exactly one allocation, which was none before, or changes nothing
      that is live. */
  lemma MallocAddsOne(s: State, zp: nat, size: nat, b: nat)
    requires Inv(s, zp)
    ensures var (s1, a) := Malloc(s, zp, size);
      Inv(s1, zp) && if a.None? then s1 == s else (Live(s1, b) <==> Live(s, b) || b == a.value) && !Live(s, a.value)
  {
    hide Inv, MallocLarge, GetZone, SetUp, ZoneIndex, Live;
    MallocKeeps(s, zp, size);
    InvPages(s, zp);
    if size >= ZoneLimit(zp) {
      if MallocLarge(s, PagesFor(size)).1.Some? {
        MallocLargeLive(s, zp, PagesFor(size), b);
      } else {
        LargeNone(s, PagesFor(size));
      }
    } else if size > 0 {
      LimitBound(zp, size);
      ZoneIndexIs(size);
      var i := ZoneIndex(size).0;
      if s.lists[i] != [] { MallocChunkLive(s, zp, i, b); }
      else if GetZone(s, zp).1.Some? { SetUpLive(s, zp, size, b); }
      else { NoZoneKeeps(s, zp); }
    }
  }

  lemma LargeNone(s: State, n: nat)
    requires MallocLarge(s, n).1.None?
    ensures MallocLarge(s, n).0 == s
  {
  }

  lemma FreeLargeLive(s: State, zp: nat, a: nat, b: nat)
    requires Inv(s, zp) && LiveLarge(s, a)
    ensures Live(FreeLarge(s, PageOf(a)), b) <==> Live(s, b) && b != a
  {
    hide ArrayOk, AllZonesOk, PagesOk, LiveSmall;
    FreeLargeKeeps(s, zp, a);
    SmallUnchanged(s, FreeLarge(s, PageOf(a)), zp, b);
    SmallNeedsPage(s, zp, a);
  }

  lemma FreeChunkLive(s: State, zp: nat, p: nat, a: nat, b: nat)
    requires Inv(s, zp) && p in s.zones && Busy(s.zones[p], a)
    ensures s.zones[p].index < |s.lists| && (Live(FreeChunk(s, p, a), b) <==> Live(s, b) && b != a)
  {
    hide Inv, Busy, LiveSmall;
    FreeChunkKeeps(s, zp, p, a);
    var s1 := FreeChunk(s, p, a);
    ZoneRight(s, zp, p);
    GiveBusy(s.zones[p], p, zp, a, b);
    LiveByZone(s, s1, zp, p, b);
    LargeOrSmall(s, zp, p, a);
  }

  lemma ZoneRight(s: State, zp: nat, p: nat)
    requires Inv(s, zp) && p in s.zones
    ensures ZoneOk(s.zones[p], p, zp)
  {
  }

  /** A zone is only given up when nothing in it is live. */
  lemma RetireLive(s: State, zp: nat, p: nat, b: nat)
    requires Inv(s, zp) && p in s.zones
    ensures s.zones[p].index < |s.lists| && (Live(Retire(s, zp, p), b) <==> Live(s, b))
  {
    hide Inv, Busy, LiveSmall;
    RetireKeeps(s, zp, p);
    ZoneRight(s, zp, p);
    var s1 := Retire(s, zp, p);
    if s1 != s {
      FullyFreeIff(s.zones[p], p, zp);
      assert !Busy(s.zones[p], b);
      ClearedLarge(s, zp, p, b);
      LiveByZone(s, s1, zp, p, b);
    }
  }

  lemma ClearedLarge(s: State, zp: nat, p: nat, b: nat)
    requires Inv(s, zp) && p in s.zones && s.zones[p].index < |s.lists|
    ensures LiveLarge(Retire(s, zp, p), b) <==> LiveLarge(s, b)
  {
    assert p in ZoneSet(s.zones, s.zoneFree);
    MarkedAt(s.usage, p, zp, PageOf(b));
  }

  /** rt_free removes exactly the allocation it was given. */
  lemma FreeRemovesOne(s: State, zp: nat, a: nat, b: nat)
    requires Inv(s, zp) && Live(s, a)
    ensures Inv(FreeAddr(s, zp, a), zp) && (Live(FreeAddr(s, zp, a), b) <==> Live(s, b) && b != a)
  {
    hide FreeLarge, Retire, FreeChunk;
    FreeKeeps(s, zp, a);
    if LiveLarge(s, a) {
      FreeLargeLive(s, zp, a, b);
    } else {
      var p := ZoneOfLive(s, zp, a);
      FreeChunkKeeps(s, zp, p, a);
      FreeChunkLive(s, zp, p, a, b);
      FreeChunkZones(s, p, a);
      RetireLive(FreeChunk(s, p, a), zp, p, b);
    }
  }

  lemma FreeChunkZones(s: State, p: nat, a: nat)
    requires p in s.zones && s.zones[p].index < |s.lists|
    ensures p in FreeChunk(s, p, a).zones
  {
  }

  // ---------------------------------------------------------------- allocations are disjoint

  /** The bytes that belong to a live allocation. */
  ghost predicate Owns(s: State, a: nat, b: nat) {
    if LiveLarge(s, a) then a <= b < a + s.usage[PageOf(a)].pages * PAGE
    else exists p: nat {:trigger s.zones[p]} :: p in s.zones && Busy(s.zones[p], a) && a <= b < a + s.zones[p].chunk
  }

  /** Two live allocations never share a byte, and no free page belongs to one. */
  lemma LiveDisjoint(s: State, zp: nat, a: nat, c: nat, b: nat)
    requires Inv(s, zp) && Live(s, a) && Live(s, c) && Owns(s, a, b) && Owns(s, c, b)
    ensures a == c && PageOf(b) < |s.usage| && !Free(s.runs, PageOf(b))
  {
    var i := OwnedPage(s, zp, a, b);
    var j := OwnedPage(s, zp, c, b);
    if i == j && !LiveLarge(s, a) && !LiveLarge(s, c) {
      OneZoneDisjoint(s, zp, i, a, c, b);
    }
    var zs := ZoneSet(s.zones, s.zoneFree);
    if LiveLarge(s, a) && LiveLarge(s, c) && i != j {
      LargesApart2(s.usage, s.runs, zs, zp, i, j, PageOf(b));
    }
  }

  /** Which page descriptor stands for the byte: the start of the large block, or the
      zone. */
  lemma OwnedPage(s: State, zp: nat, a: nat, b: nat) returns (p: nat)
    requires Inv(s, zp) && Live(s, a) && Owns(s, a, b)
    ensures PageOf(b) < |s.usage| && !Free(s.runs, PageOf(b)) && PageOf(a) < |s.usage|
    ensures if LiveLarge(s, a)
        then a == p * PAGE && p < |s.usage| && p <= PageOf(b) < p + s.usage[p].pages && s.usage[p].LargePage?
              && (PageOf(b) == p || !InUse(s.usage[PageOf(b)]))
            else p in s.zones && Busy(s.zones[p], a) && a <= b < a + s.zones[p].chunk && InZone(s, b, p)
  {
    hide FirstChunk, ArrayOk;
    var zs := ZoneSet(s.zones, s.zoneFree);
    if LiveLarge(s, a) {
      p := PageOf(a);
      assert PageOk(s.usage, s.runs, zs, zp, p);
      assert p <= PageOf(b) < p + s.usage[p].pages;
      assert s.usage[PageOf(b)] == s.usage[PageOf(b)];
    } else {
      var q: nat :| q in s.zones && Busy(s.zones[q], a) && a <= b < a + s.zones[q].chunk;
      p := q;
      var k: nat :| k <= s.zones[p].uindex && a == ChunkAt(s.zones[p], k);
      ZoneRight(s, zp, p);
      Recovered(s, zp, p, k, b - a);
      Recovered(s, zp, p, k, 0);
      assert PageOk(s.usage, s.runs, zs, zp, PageOf(b));
    }
  }

  lemma OneZoneDisjoint(s: State, zp: nat, p: nat, a: nat, c: nat, b: nat)
    requires Inv(s, zp) && p in s.zones && Busy(s.zones[p], a) && Busy(s.zones[p], c)
    requires a <= b < a + s.zones[p].chunk && c <= b < c + s.zones[p].chunk
    ensures a == c
  {
    var z := s.zones[p];
    var j: nat :| j <= z.uindex && a == ChunkAt(z, j);
    var k: nat :| k <= z.uindex && c == ChunkAt(z, k);
    if j < k { ChunksApart(z, j, k); }
    if k < j { ChunksApart(z, k, j); }
  }

  lemma LargesApart2(usage: seq<Usage>, runs: seq<PageRun>, zs: set<nat>, zp: nat, p: nat, i: nat, j: nat)
    requires PagesOk(usage, runs, zs, zp) && p < |usage| && i < |usage|
    requires usage[p].LargePage? && usage[p].pages > 0 && usage[i].LargePage? && usage[i].pages > 0
    ensures p <= j < p + usage[p].pages && i <= j < i + usage[i].pages ==> p == i
  {
    assert PageOk(usage, runs, zs, zp, p) && PageOk(usage, runs, zs, zp, i);
    assert InUse(usage[p]) && InUse(usage[i]);
  }

  // ---------------------------------------------------------------- runs

  datatype Op = OpMalloc(size: nat) | OpFree(a: nat)

  ghost function Step(s: State, zp: nat, op: Op): State
    requires Inv(s, zp)
  {
    match op
    case OpMalloc(size) => Malloc(s, zp, size).0
    case OpFree(a) => if Live(s, a) then FreeAddr(s, zp, a) else s
  }

  lemma StepKeeps(s: State, zp: nat, op: Op)
    requires Inv(s, zp)
    ensures Inv(Step(s, zp, op), zp)
  {
    hide Inv, Malloc, FreeAddr, Live;
    match op
    case OpMalloc(size) => MallocKeeps(s, zp, size);
    case OpFree(a) => if Live(s, a) { FreeKeeps(s, zp, a); }
  }

  ghost function Run(s: State, zp: nat, ops: seq<Op>): State
    requires Inv(s, zp)
    decreases |ops|
  {
    if ops == [] then s else StepKeeps(s, zp, ops[0]); Run(Step(s, zp, ops[0]), zp, ops[1..])
  }

  /** Over every run: z_nfree counts the never used and the returned chunks; a zone is on
      the list of its index exactly while it has room and is not in reserve; its pages
      lead back to it; at most two zones are in reserve; free pages, zones and large
      blocks never overlap. */
  lemma {:induction false} RunsKeepSlab(s: State, zp: nat, ops: seq<Op>)
    requires Inv(s, zp)
    ensures Inv(Run(s, zp, ops), zp)
    decreases |ops|
  {
    hide Inv, Step;
    if ops != [] {
      StepKeeps(s, zp, ops[0]);
      RunsKeepSlab(Step(s, zp, ops[0]), zp, ops[1..]);
    }
  }

  /** rt_system_heap_init for n pages, m of which hold the descriptors themselves. */
  function Initial(n: nat, m: nat): State {
    State(map[], seq(NZONES, _ => []), [], 0, seq(n, _ => FreePage), Take([PageRun(0, n)], m).0)
  }

  lemma InitialKeeps(n: nat, m: nat, zp: nat)
    requires ZonePages(zp) && n > 0
    ensures Inv(Initial(n, m), zp)
  {
    var s, whole := Initial(n, m), [PageRun(0, n)];
    assert Canonical(whole);
    forall p: nat | Free(whole, p)
      ensures p < n
    {
    }
    if Take(whole, m).1.Some? { TakeIsSubtraction(whole, m); }
    forall i | 0 <= i < n
      ensures PageOk(s.usage, s.runs, ZoneSet(s.zones, s.zoneFree), zp, i)
    {
    }
    forall i | 0 <= i < NZONES
      ensures ListOk(s.lists[i], s.zones, i)
    {
    }
    assert Members([]) == {};
  }

  /** Zones grow with the heap: 64 KB from more than 64 MB on, 128 KB beyond 128 MB. */
  function ZonePagesFor(limsize: nat): nat {
    if limsize / 1024 > 131072 then 32 else if limsize / 1024 > 65536 then 16 else 8
  }

  /** Pages that hold one four-byte descriptor for each of n pages. */
  function UsagePages(n: nat): nat { (n * 4 + PAGE - 1) / PAGE }

  /** The page table fits in front of a heap of any size: the source does not ask. */
  lemma TableFits(n: nat)
    requires n > 0
    ensures 0 < UsagePages(n) <= n && Take([PageRun(0, n)], UsagePages(n)).1 == Some(0)
  {
    assert FindRun([PageRun(0, n)], UsagePages(n), 0) == 0;
  }

  /** The heap as rt_system_heap_init leaves it. */
  function Booted(n: nat): State { Initial(n, UsagePages(n)) }
}
