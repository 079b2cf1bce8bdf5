/** rt-thread/src/slab.c: when rt_malloc fails, where its answer comes from, which pages it
    takes and rt_free gives back; and that no page is ever lost. */
module SlabCalls {
  import opened Common
  import opened Lists
  import opened SlabPageSpec
  import opened SlabZoneSpec
  import opened SlabUsage
  import opened SlabSpec
  import opened SlabTheorems
  import opened SlabAlignment

  // ---------------------------------------------------------------- rt_malloc

  /** Some n pages in a row are free. */
  ghost predicate Consecutive(s: State, n: nat) { n > 0 && exists x: nat :: AllFree(s.runs, x, n) }

  /** The pages from x on are the lowest n free ones in a row, and are free no more. */
  ghost predicate TakesPages(s: State, s1: State, x: nat, n: nat) {
    && AllFree(s.runs, x, n) && (forall y: nat {:trigger AllFree(s.runs, y, n)} :: AllFree(s.runs, y, n) ==> x <= y)
    && forall q: nat {:trigger Free(s1.runs, q)} :: Free(s1.runs, q) <==> Free(s.runs, q) && !(x <= q < x + n)
  }

  lemma TakeVerdict(s: State, zp: nat, n: nat)
    requires Inv(s, zp)
    ensures Take(s.runs, n).1.Some? <==> Consecutive(s, n)
    ensures Take(s.runs, n).1.Some? ==>
      TakesPages(s, s.(runs := Take(s.runs, n).0), Take(s.runs, n).1.value, n) && Take(s.runs, n).1.value < |s.usage|
  {
    hide Canonical, Take;
    InvCanonical(s, zp);
    if n == 0 { TakeNothing(s.runs); return; }
    TakeIff(s.runs, n);
    if Take(s.runs, n).1.Some? {
      TakeIsSubtraction(s.runs, n);
      FreshPages(s.usage, s.runs, ZoneSet(s.zones, s.zoneFree), zp, n);
      Together(s, n);
    }
  }

  lemma InvCanonical(s: State, zp: nat)
    requires Inv(s, zp)
    ensures Canonical(s.runs) && PagesOk(s.usage, s.runs, ZoneSet(s.zones, s.zoneFree), zp)
  {
  }

  lemma TakeNothing(runs: seq<PageRun>)
    ensures Take(runs, 0) == (runs, None)
  {
  }

  lemma Together(s: State, n: nat)
    requires n > 0 && Take(s.runs, n).1.Some?
    requires var a := Take(s.runs, n).1.value; forall p: nat {:trigger Free(s.runs, p)} ::
        a <= p < a + n ==> Free(s.runs, p)
    ensures AllFree(s.runs, Take(s.runs, n).1.value, n)
  {
  }

  /** The verdict of rt_malloc for at least ZoneLimit bytes: it fails if and only if not
      that many pages in a row are free (rounding up to pages may wrap to none), and
      otherwise takes the lowest. */
  lemma LargeVerdict(s: State, zp: nat, size: nat)
    requires Inv(s, zp) && size > 0 && size >= ZoneLimit(zp)
    ensures var (s1, a) := Malloc(s, zp, size); var n := PagesFor(size);
      && (a.Some? <==> Consecutive(s, n)) && (a.None? ==> s1 == s)
      && (a.Some? ==> a.value % PAGE == 0 && TakesPages(s, s1, a.value / PAGE, n))
  {
    hide Inv, Take, TakesPages, PagesFor, Consecutive;
    var n := PagesFor(size);
    TakeVerdict(s, zp, n);
    LargeTakes(s, n);
  }

  lemma LargeTakes(s: State, n: nat)
    requires Take(s.runs, n).1.Some? ==>
      TakesPages(s, s.(runs := Take(s.runs, n).0), Take(s.runs, n).1.value, n) && Take(s.runs, n).1.value < |s.usage|
    ensures var (s1, a) := MallocLarge(s, n);
      && (a.Some? <==> Take(s.runs, n).1.Some?) && (a.None? ==> s1 == s)
      && (a.Some? ==> a.value % PAGE == 0 && TakesPages(s, s1, a.value / PAGE, n))
  {
    hide Take;
  }

  /** The verdict of rt_malloc for less: a chunk of the first zone on the list of its index;
      with none there, of a zone in reserve; with none there either, of a new zone in the
      lowest pages that are free in a row. It fails if and only if there is none of these. */
  lemma SmallVerdict(s: State, zp: nat, size: nat)
    requires Inv(s, zp) && 0 < size < ZoneLimit(zp)
    ensures |s.lists| == NZONES && ZonePages(zp) && 0 <= ZoneIndex(size).0 < NZONES
    ensures var (s1, a) := Malloc(s, zp, size); var list := s.lists[ZoneIndex(size).0];
      && (a.Some? <==> list != [] || s.zoneFree != [] || Consecutive(s, zp)) && (a.None? ==> s1 == s)
      && (a.Some? ==>
            var p := if list != [] then list[0] else if s.zoneFree != [] then s.zoneFree[0]
                else SourcePage(s, zp, size);
            && p in s1.zones && Busy(s1.zones[p], a.value) && s1.zones[p].chunk >= size
            && if list != [] || s.zoneFree != [] then s1.runs == s.runs else TakesPages(s, s1, p, zp))
  {
    hide Inv, Take, TakesPages, Consecutive, ZoneIndex, ChunkOf, SetUp, MarkZone, Busy;
    InvPages(s, zp);
    LimitBound(zp, size);
    ZoneIndexIs(size);
    TakeVerdict(s, zp, zp);
    SmallTakes(s, zp, size);
    if Malloc(s, zp, size).1.Some? { FromSource(s, zp, size); }
  }

  lemma SmallTakes(s: State, zp: nat, size: nat)
    requires Inv(s, zp) && 0 < size < ZoneLimit(zp) && |s.lists| == NZONES && ZonePages(zp)
        && 0 <= ZoneIndex(size).0 < NZONES
    requires Take(s.runs, zp).1.Some? ==> TakesPages(s, s.(runs := Take(s.runs, zp).0), Take(s.runs, zp).1.value, zp)
    ensures var (s1, a) := Malloc(s, zp, size); var list := s.lists[ZoneIndex(size).0];
      && (a.Some? <==> list != [] || s.zoneFree != [] || Take(s.runs, zp).1.Some?) && (a.None? ==> s1 == s)
      && (a.Some? ==>
            if list != [] || s.zoneFree != [] then s1.runs == s.runs
                else TakesPages(s, s1, SourcePage(s, zp, size), zp))
  {
    hide Inv, Take, ZoneIndex, ChunkOf, MarkZone, FirstChunk;
  }

  // ---------------------------------------------------------------- rt_free

  /** Just the n pages from x on have become free. */
  ghost predicate GivesPages(s: State, s1: State, x: nat, n: nat) {
    forall q: nat {:trigger Free(s1.runs, q)} :: Free(s1.runs, q) <==> Free(s.runs, q) || x <= q < x + n
  }

  /** A large block gives back its pages, and nothing else changes. */
  lemma FreeLargeVerdict(s: State, zp: nat, a: nat)
    requires Inv(s, zp) && LiveLarge(s, a)
    ensures var s1 := FreeAddr(s, zp, a);
      && GivesPages(s, s1, PageOf(a), s.usage[PageOf(a)].pages)
      && s1.zones == s.zones && s1.lists == s.lists && s1.zoneFree == s.zoneFree
  {
    hide Give, Canonical, ArrayOk, AllZonesOk;
    InvCanonical(s, zp);
    LargeGiven(s.usage, s.runs, ZoneSet(s.zones, s.zoneFree), zp, PageOf(a));
    GiveIsUnion(s.runs, PageOf(a), s.usage[PageOf(a)].pages);
  }

  /** Another zone than p with the same chunks has room. */
  ghost predicate OtherRoom(s: State, p: nat)
    requires p in s.zones
  {
    exists q: nat {:trigger s.zones[q]} ::
        q != p && q in s.zones && s.zones[q].index == s.zones[p].index && s.zones[q].nfree > 0
  }

  /** A chunk of zone p is given back. If that was the last one in use, and another zone
      with the same chunks has room, the zone is retired: into the reserve, or, with two
      there already, its pages are released. Otherwise zone and pages stay. */
  lemma FreeSmallVerdict(s: State, zp: nat, a: nat) returns (p: nat)
    requires Inv(s, zp) && Live(s, a) && !LiveLarge(s, a)
    ensures p in s.zones && Busy(s.zones[p], a)
    ensures var s1 := FreeAddr(s, zp, a);
      if s.zones[p].nfree + 1 == s.zones[p].nmax && OtherRoom(s, p) then
        && p !in s1.zones
        && if |s.zoneFree| == RELEASE_THRESH then s1.zoneFree == s.zoneFree && GivesPages(s, s1, p, zp)
           else s1.zoneFree == [p] + s.zoneFree && s1.runs == s.runs
      else p in s1.zones && s1.zones[p].nfree == s.zones[p].nfree + 1 && s1.zoneFree == s.zoneFree && s1.runs == s.runs
  {
    hide PagesOk, GivesPages, OtherRoom, Give, Inv, Live, LiveLarge, FreeAddr, Busy;
    p := ZoneOfLive(s, zp, a);
    FreeChunkKeeps(s, zp, p, a);
    FreeIsRetire(s, zp, a, p);
    AloneIff(s, zp, p, a);
    ReserveCount(s, zp);
    ChunkGiven(s, p, a);
    RetireVerdict(FreeChunk(s, p, a), zp, p);
    if |s.zoneFree| == RELEASE_THRESH { ZonePagesBack(s, zp, p); }
    SamePages(s, Retire(FreeChunk(s, p, a), zp, p), p, zp);
  }

  lemma FreeIsRetire(s: State, zp: nat, a: nat, p: nat)
    requires Inv(s, zp) && Live(s, a) && !LiveLarge(s, a) && PageOf(a) < |s.usage|
    requires s.usage[PageOf(a)].SmallPage? && p + s.usage[PageOf(a)].off == PageOf(a)
    requires p in s.zones && s.zones[p].index < |s.lists|
    ensures FreeAddr(s, zp, a) == Retire(FreeChunk(s, p, a), zp, p)
  {
    hide Inv, Live, Retire, FreeChunk;
  }

  lemma ReserveCount(s: State, zp: nat)
    requires Inv(s, zp)
    ensures s.freeCnt == |s.zoneFree| <= RELEASE_THRESH
  {
  }

  /** The chunk is back in its zone; nothing else is different, but the order of zones. */
  lemma ChunkGiven(s: State, p: nat, a: nat)
    requires p in s.zones && s.zones[p].index < |s.lists|
    ensures var mid := FreeChunk(s, p, a);
      && p in mid.zones && mid.zones[p].nfree == s.zones[p].nfree + 1 && mid.zones[p].nmax == s.zones[p].nmax
      && mid.zones[p].index == s.zones[p].index && |mid.lists| == |s.lists|
      && mid.zoneFree == s.zoneFree && mid.freeCnt == s.freeCnt && mid.runs == s.runs && mid.usage == s.usage
  {
  }

  lemma RetireVerdict(s: State, zp: nat, p: nat)
    requires p in s.zones && s.zones[p].index < |s.lists|
    ensures var s1 := Retire(s, zp, p);
      if s.zones[p].nfree == s.zones[p].nmax && s.lists[s.zones[p].index] != [p] then
        && p !in s1.zones
        && (if s.freeCnt >= RELEASE_THRESH then s1.zoneFree == s.zoneFree && s1.runs == Give(s.runs, p, zp)
            else s1.zoneFree == [p] + s.zoneFree && s1.runs == s.runs)
      else s1 == s
  {
    hide Give;
  }

  lemma SamePages(s: State, s1: State, p: nat, zp: nat)
    ensures s1.runs == Give(s.runs, p, zp) && GivesPages(s, s.(runs := Give(s.runs, p, zp)), p, zp) ==>
        GivesPages(s, s1, p, zp)
  {
  }

  lemma AloneIff(s: State, zp: nat, p: nat, a: nat)
    requires Inv(s, zp) && p in s.zones && Busy(s.zones[p], a)
    ensures s.zones[p].index < |s.lists|
    ensures FreeChunk(s, p, a).lists[s.zones[p].index] == [p] <==> !OtherRoom(s, p)
  {
    hide PagesOk;
    FreeChunkKeeps(s, zp, p, a);
    var mid, i := FreeChunk(s, p, a), s.zones[p].index;
    var list := mid.lists[i];
    assert ListOk(list, mid.zones, i);
    assert p in list;
    if OtherRoom(s, p) {
      var q: nat :| q != p && q in s.zones && s.zones[q].index == i && s.zones[q].nfree > 0;
      assert q in list;
    } else {
      forall q | q in list
        ensures q == p
      {
      }
      OnlyOne(list, p);
    }
  }

  lemma OnlyOne(list: seq<nat>, p: nat)
    requires NoDup(list) && p in list && forall q {:trigger q in list} :: q in list ==> q == p
    ensures list == [p]
  {
    assert list[0] in list;
    if |list| > 1 { TwoDiffer(list); }
  }

  lemma TwoDiffer(list: seq<nat>)
    requires NoDup(list) && |list| > 1
    ensures list[0] != list[1] && list[0] in list && list[1] in list
  {
  }

  lemma ZonePagesBack(s: State, zp: nat, p: nat)
    requires Inv(s, zp) && p in s.zones
    ensures GivesPages(s, s.(runs := Give(s.runs, p, zp)), p, zp)
  {
    hide Give, Canonical;
    InvCanonical(s, zp);
    InvPages(s, zp);
    ZoneGiven(s.usage, s.runs, ZoneSet(s.zones, s.zoneFree), zp, p);
    GiveIsUnion(s.runs, p, zp);
  }

  // ---------------------------------------------------------------- no page is lost

  /** Page q is free, or in a zone, or in a large block. */
  ghost predicate Tracked(usage: seq<Usage>, runs: seq<PageRun>, q: nat)
    requires q < |usage|
  {
    || Free(runs, q) || usage[q].SmallPage?
    || exists i {:trigger usage[i]} :: 0 <= i <= q && usage[i].LargePage? && q < i + usage[i].pages
  }

  /** So is every page behind the m pages of the table. */
  ghost predicate AllTracked(usage: seq<Usage>, runs: seq<PageRun>, m: nat) {
    forall q: nat {:trigger Tracked(usage, runs, q)} :: m <= q < |usage| ==> Tracked(usage, runs, q)
  }

  lemma LargeTracked(usage: seq<Usage>, runs: seq<PageRun>, zs: set<nat>, zp: nat, n: nat, m: nat)
    requires PagesOk(usage, runs, zs, zp) && Take(runs, n).1.Some? && AllTracked(usage, runs, m)
    ensures var (r, a) := Take(runs, n); a.value < |usage| && AllTracked(usage[a.value := LargePage(n)], r, m)
  {
    hide Canonical, Take;
    FreshPages(usage, runs, zs, zp, n);
    TakeIsSubtraction(runs, n);
    var (r, b) := Take(runs, n);
    var a := b.value;
    var u1 := usage[a := LargePage(n)];
    forall q: nat | m <= q < |usage|
      ensures Tracked(u1, r, q)
    {
      assert Tracked(usage, runs, q) && Free(runs, a) && !InUse(usage[a]);
      if a <= q < a + n {
        assert u1[a] == LargePage(n);
      } else if !Free(runs, q) && !usage[q].SmallPage? {
        var i :| 0 <= i <= q && usage[i].LargePage? && q < i + usage[i].pages;
        assert InUse(usage[i]) && u1[i] == usage[i];
      }
    }
  }

  lemma ZoneTracked(usage: seq<Usage>, runs: seq<PageRun>, zs: set<nat>, zp: nat, m: nat)
    requires PagesOk(usage, runs, zs, zp) && Take(runs, zp).1.Some? && AllTracked(usage, runs, m)
    ensures var (r, a) := Take(runs, zp); AllTracked(MarkZone(usage, a.value, zp), r, m)
  {
    hide Canonical, Take;
    FreshPages(usage, runs, zs, zp, zp);
    TakeIsSubtraction(runs, zp);
    var (r, b) := Take(runs, zp);
    var a := b.value;
    var u1 := MarkZone(usage, a, zp);
    forall q: nat | m <= q < |usage|
      ensures Tracked(u1, r, q)
    {
      assert Tracked(usage, runs, q);
      if !(a <= q < a + zp) && !Free(runs, q) && !usage[q].SmallPage? {
        var i :| 0 <= i <= q && usage[i].LargePage? && q < i + usage[i].pages;
        assert InUse(usage[i]) && u1[i] == usage[i];
      }
    }
  }

  lemma LargeBackTracked(usage: seq<Usage>, runs: seq<PageRun>, zs: set<nat>, zp: nat, p: nat, m: nat)
    requires PagesOk(usage, runs, zs, zp) && p < |usage| && usage[p].LargePage? && usage[p].pages > 0
    requires AllTracked(usage, runs, m)
    ensures AllTracked(usage[p := LargePage(0)], Give(runs, p, usage[p].pages), m)
  {
    hide Canonical, Give;
    LargeGiven(usage, runs, zs, zp, p);
    GiveIsUnion(runs, p, usage[p].pages);
    var u1, r := usage[p := LargePage(0)], Give(runs, p, usage[p].pages);
    forall q: nat | m <= q < |usage|
      ensures Tracked(u1, r, q)
    {
      assert Tracked(usage, runs, q);
      if !Free(r, q) && !usage[q].SmallPage? {
        var i :| 0 <= i <= q && usage[i].LargePage? && q < i + usage[i].pages;
        assert u1[i] == usage[i];
      }
    }
  }

  lemma ZoneBackTracked(usage: seq<Usage>, runs: seq<PageRun>, zs: set<nat>, zp: nat, p: nat, m: nat)
    requires PagesOk(usage, runs, zs, zp) && p in zs && AllTracked(usage, runs, m)
    ensures AllTracked(ClearZone(usage, p, zp), Give(runs, p, zp), m)
  {
    hide Canonical, Give;
    ZoneGiven(usage, runs, zs, zp, p);
    GiveIsUnion(runs, p, zp);
    assert ZoneMarked(usage, p, zp);
    var u1, r := ClearZone(usage, p, zp), Give(runs, p, zp);
    forall q: nat | m <= q < |usage|
      ensures Tracked(u1, r, q)
    {
      assert Tracked(usage, runs, q);
      if !Free(r, q) && !usage[q].SmallPage? {
        var i :| 0 <= i <= q && usage[i].LargePage? && q < i + usage[i].pages;
        assert u1[i] == usage[i];
      }
    }
  }

  lemma MallocTracked(s: State, zp: nat, size: nat, m: nat)
    requires Inv(s, zp) && AllTracked(s.usage, s.runs, m)
    ensures var s1 := Malloc(s, zp, size).0; AllTracked(s1.usage, s1.runs, m)
  {
    hide PagesOk, ArrayOk, AllZonesOk, AllTracked, Take, MarkZone, ZoneIndex, ChunkOf, PagesFor, FirstChunk;
    var zs := ZoneSet(s.zones, s.zoneFree);
    if size >= ZoneLimit(zp) {
      if Take(s.runs, PagesFor(size)).1.Some? { LargeTracked(s.usage, s.runs, zs, zp, PagesFor(size), m); }
    } else if size > 0 && Take(s.runs, zp).1.Some? {
      ZoneTracked(s.usage, s.runs, zs, zp, m);
    }
  }

  lemma FreeTracked(s: State, zp: nat, a: nat, m: nat)
    requires Inv(s, zp) && Live(s, a) && AllTracked(s.usage, s.runs, m)
    ensures var s1 := FreeAddr(s, zp, a); AllTracked(s1.usage, s1.runs, m)
  {
    hide PagesOk, ArrayOk, AllTracked, ClearZone, Give, Without;
    var zs := ZoneSet(s.zones, s.zoneFree);
    if LiveLarge(s, a) {
      LargeBackTracked(s.usage, s.runs, zs, zp, PageOf(a), m);
    } else {
      var p := ZoneOfLive(s, zp, a);
      ZoneBackTracked(s.usage, s.runs, zs, zp, p, m);
    }
  }

  /** Over every run no page is lost: each one behind the page table is free, or in a zone,
      or in a large block. */
  lemma {:induction false} NoPageIsLost(s: State, zp: nat, ops: seq<Op>, m: nat)
    requires Inv(s, zp) && AllTracked(s.usage, s.runs, m)
    ensures var r := Run(s, zp, ops); AllTracked(r.usage, r.runs, m)
    decreases |ops|
  {
    hide Inv, Malloc, FreeAddr, Live, AllTracked;
    if ops != [] {
      match ops[0] {
        case OpMalloc(size) => MallocTracked(s, zp, size, m);
        case OpFree(a) => if Live(s, a) { FreeTracked(s, zp, a, m); }
      }
      StepKeeps(s, zp, ops[0]);
      NoPageIsLost(Step(s, zp, ops[0]), zp, ops[1..], m);
    }
  }

  /** The heap as rt_system_heap_init leaves it loses none either. */
  lemma BootedTracked(n: nat)
    requires n > 0
    ensures AllTracked(Booted(n).usage, Booted(n).runs, UsagePages(n))
  {
    TableFits(n);
    var whole, m, s := [PageRun(0, n)], UsagePages(n), Booted(n);
    assert Canonical(whole);
    TakeIsSubtraction(whole, m);
    forall q: nat | m <= q < n
      ensures Tracked(s.usage, s.runs, q)
    {
      assert Holds(whole[0], q);
      assert Free(whole, q) && Free(s.runs, q);
    }
  }
}
