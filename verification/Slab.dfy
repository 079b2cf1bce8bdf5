/** rt-thread/src/slab.c: rt_system_heap_init, rt_malloc and rt_free. Zone headers are a
    table indexed by the zone's first page; addresses are offsets from heap_start. */
module Slab {
  import opened Common
  import opened Lists
  import opened SlabPageSpec
  import opened SlabPages
  import opened SlabZoneSpec
  import opened SlabUsage
  import Spec = SlabSpec
  import Theorems = SlabTheorems

  // ---------------------------------------------------------------- sizes fixed at start

  /** heap_start: the address rounded up to a page. */
  function StartOf(begin: nat): nat { (begin + PAGE - 1) % WORD_RANGE / PAGE * PAGE }

  /** Whole pages between two addresses: the first rounded up, the second down. */
  function PagesBetween(begin: nat, end: nat): int {
    (end - end % PAGE - StartOf(begin)) / PAGE
  }

  /** The loop that doubles the zone size. */
  method ZoneSizing(limsize: nat) returns (zp: nat)
    ensures zp == Theorems.ZonePagesFor(limsize) && ZonePages(zp)
  {
    var size := 32768;
    while size < 131072 && size * 2 < limsize / 1024
      invariant size == 32768 || (size == 65536 && limsize / 1024 > 65536)
          || (size == 131072 && limsize / 1024 > 131072)
      decreases 131072 - size
    {
      size := size * 2;
    }
    zp := size / PAGE;
  }

  /** Never used space is handed out before returned chunks. */
  method NextChunk(z: Zone, c: nat) returns (z1: Zone, a: nat)
    requires z.nfree > 0 && c == z.chunk && (z.uindex + 1 == z.nmax ==> z.free != [])
    ensures (z1, a) == ZoneTake(z)
  {
    z1 := z.(nfree := z.nfree - 1);
    if z1.uindex + 1 != z1.nmax {
      z1 := z1.(uindex := z1.uindex + 1);
      a := z1.base + z1.uindex * c;
      ChunkProduct(z, z1.uindex);
    } else {
      a := z1.free[0];
      z1 := z1.(free := z1.free[1..]);
    }
  }

  /** The list without zone p, found by walking it. */
  method Unlinked(list: seq<nat>, p: nat) returns (r: seq<nat>)
    requires NoDup(list) && p in list
    ensures r == Without(list, p)
  {
    var k := 0;
    while list[k] != p
      invariant k < |list| && p !in list[..k]
      decreases |list| - k
    {
      k := k + 1;
    }
    WithoutAt(list, k);
    r := list[..k] + list[k + 1..];
  }

  /** The heap for a range of addresses, or none if no page lies in it. */
  method HeapInit(begin: nat, end: nat) returns (h: Heap?)
    requires begin < WORD_RANGE && end < WORD_RANGE
    ensures h != null ==> h.start == StartOf(begin) && h.start % PAGE == 0
    ensures h == null <==> PagesBetween(begin, end) <= 0
    ensures h != null ==> fresh(h) && h.Valid() && h.zp == Theorems.ZonePagesFor(PagesBetween(begin, end) * PAGE)
    ensures h != null ==> h.Now() == Theorems.Booted(PagesBetween(begin, end))
  {
    var n := PagesBetween(begin, end);
    if n <= 0 { return null; }
    h := new Heap(StartOf(begin), n);
  }

  class Heap {
    const start: nat                  // heap_start
    const zp: nat                     // zone_page_cnt
    const pages: PageList             // rt_page_list
    const memusage: array<Usage>
    var zones: map<nat, Zone>
    var lists: seq<seq<nat>>          // zone_array
    var zoneFree: seq<nat>            // zone_free
    var freeCnt: nat                  // zone_free_cnt

    ghost function Now(): State
      reads this, pages, memusage
    {
      State(zones, lists, zoneFree, freeCnt, memusage[..], pages.runs)
    }

    ghost predicate Valid()
      reads this, pages, pages.next, pages.count, memusage
    {
      && pages.Valid() && pages.next.Length == memusage.Length
      && Spec.Inv(Now(), zp)
    }

    /** rt_system_heap_init, for npages pages; the page table always gets its pages. */
    constructor (begin: nat, npages: nat)
      requires npages > 0
      ensures start == begin
      ensures Valid() && fresh(pages) && fresh(pages.next) && fresh(pages.count) && fresh(memusage)
      ensures zp == Theorems.ZonePagesFor(npages * PAGE) && Now() == Theorems.Booted(npages)
    {
      var list := new PageList(npages);
      var units := ZoneSizing(npages * PAGE);
      var table := list.Alloc(Theorems.UsagePages(npages));
      Theorems.TableFits(npages);
      assert table == Some(0);
      start, pages, zp := begin, list, units;
      memusage := new Usage[npages](_ => FreePage);
      zones, lists, zoneFree, freeCnt := map[], seq(NZONES, _ => []), [], 0;
      new;
      Theorems.InitialKeeps(npages, Theorems.UsagePages(npages), zp);
      assert memusage[..] == seq(npages, _ => FreePage);
    }

    lemma InRange()
      requires Valid()
      ensures ZonePages(zp) && |lists| == NZONES
    {
      Spec.InvPages(Now(), zp);
    }

    /** A request the zones do not serve gets pages of its own. */
    method AllocLarge(n: nat) returns (a: Option<nat>)
      requires Valid()
      modifies pages, pages.next, pages.count, memusage
      ensures Valid() && (Now(), a) == Spec.MallocLarge(old(Now()), n)
    {
      ghost var s := Now();
      Spec.LargeKeeps(s, zp, n);
      if Take(s.runs, n).1.Some? { FreshPages(s.usage, s.runs, Spec.ZoneSet(zones, zoneFree), zp, n); }
      hide Spec.Inv;
      var b := pages.Alloc(n);
      if b == None { return None; }
      memusage[b.value] := LargePage(n);
      a := Some(b.value * PAGE);
    }

    /** The next chunk of the first zone on list i. */
    method TakeChunk(i: nat, c: nat) returns (a: nat)
      requires Valid() && i < NZONES && lists[i] != [] && c == ChunkOf(i)
      modifies this
      ensures Valid() && (Now(), a) == Spec.MallocChunk(old(Now()), zp, i)
    {
      hide Spec.Inv, ZoneOk, ZoneTake, ChunkOf;
      ghost var s := Now();
      InRange();
      Spec.ChunkKeeps(s, zp, i);
      Spec.HeadZone(s, zp, i);
      var p := lists[i][0];
      TakeOk(zones[p], p, zp);
      ZoneChunk(zones[p], p, zp);
      var z;
      z, a := NextChunk(zones[p], c);
      if z.nfree == 0 { lists := lists[i := lists[i][1..]]; }
      zones := zones[p := z];
    }

    lemma ZoneChunk(z: Zone, p: nat, zp: nat)
      requires ZoneOk(z, p, zp)
      ensures z.chunk == ChunkOf(z.index)
    {
    }

    /** Every page of the zone notes how far it is from the first. */
    method MarkPages(p: nat)
      requires p + zp <= memusage.Length
      modifies memusage
      ensures memusage[..] == MarkZone(old(memusage[..]), p, zp)
    {
      for off := 0 to zp
        invariant forall i {:trigger memusage[i]} ::
            0 <= i < memusage.Length ==>
            memusage[i] == if p <= i < p + off then SmallPage(i - p) else old(memusage[..])[i]
      {
        memusage[p + off] := SmallPage(off);
      }
      assert memusage[..] == MarkZone(old(memusage[..]), p, zp);
    }

    method ClearPages(p: nat)
      requires p + zp <= memusage.Length
      modifies memusage
      ensures memusage[..] == ClearZone(old(memusage[..]), p, zp)
    {
      for off := 0 to zp
        invariant forall i {:trigger memusage[i]} ::
            0 <= i < memusage.Length ==> memusage[i] == if p <= i < p + off then FreePage else old(memusage[..])[i]
      {
        memusage[p + off] := FreePage;
      }
      assert memusage[..] == ClearZone(old(memusage[..]), p, zp);
    }

    /** The pages of a zone: one kept in reserve, or new ones. */
    method ObtainZone() returns (p: Option<nat>)
      requires Valid()
      modifies this, pages, pages.next, pages.count, memusage
      ensures pages.Valid() && (Now(), p) == Spec.GetZone(old(Now()), zp)
    {
      ghost var s := Now();
      if Take(s.runs, zp).1.Some? { FreshPages(s.usage, s.runs, Spec.ZoneSet(zones, zoneFree), zp, zp); }
      assert freeCnt == |zoneFree|;
      hide Spec.Inv;
      if zoneFree != [] {
        p := Some(zoneFree[0]);
        zoneFree := zoneFree[1..];
        freeCnt := freeCnt - 1;
      } else {
        p := pages.Alloc(zp);
        if p == None { return; }
        MarkPages(p.value);
      }
    }

    /** rt_malloc. */
    method Malloc(size: nat) returns (a: Option<nat>)
      requires Valid() && size < WORD_RANGE
      modifies this, pages, pages.next, pages.count, memusage
      ensures Valid() && (Now(), a) == Spec.Malloc(old(Now()), zp, size)
    {
      hide Spec.Inv, Spec.MallocLarge, Spec.MallocChunk, Spec.GetZone, ZoneIndex;
      ghost var s := Now();
      if size == 0 { return None; }
      InRange();
      Spec.MallocKeeps(s, zp, size);
      if size >= ZoneLimit(zp) {
        a := AllocLarge(Spec.PagesFor(size));
        return;
      }
      Spec.LimitBound(zp, size);
      ZoneIndexIs(size);
      var (i, c) := ZoneIndex(size);
      if lists[i] != [] {
        var b := TakeChunk(i, c);
        return Some(b);
      }
      var p := ObtainZone();
      Got(s);
      if p == None { return None; }
      var off := FirstChunk(c);
      zones := zones[p.value := NewZone(p.value, zp, i, c)];
      lists := lists[i := [p.value] + lists[i]];
      a := Some(p.value * PAGE + off);
    }

    /** A failed request for a zone changed nothing; the lists are as they were. */
    lemma Got(s: State)
      ensures var (s1, p) := Spec.GetZone(s, zp); s1.zones == s.zones && s1.lists == s.lists && (p == None ==> s1 == s)
    {
    }

    /** rt_free; a pointer that is not NULL must come from rt_malloc. */
    method Free(ptr: Option<nat>)
      requires Valid() && (ptr.Some? ==> Spec.Live(Now(), ptr.value))
      modifies this, pages, pages.next, pages.count, memusage
      ensures Valid() && Now() == if ptr.None? then old(Now()) else Spec.FreeAddr(old(Now()), zp, ptr.value)
    {
      hide Spec.Inv, Spec.FreeLarge, Spec.FreeChunk, Spec.Retire, Spec.LiveSmall;
      if ptr == None { return; }
      var a := ptr.value;
      ghost var s := Now();
      Theorems.FreeKeeps(s, zp, a);
      LivePage(s, a);
      var kup := memusage[a / PAGE];
      if kup.LargePage? {
        NotSmall(s, a);
        FreePages(a);
        return;
      }
      ghost var q := Theorems.ZoneOfLive(s, zp, a);
      var p := a / PAGE - kup.off;
      ReturnChunk(p, a);
      GiveUp(p);
    }

    lemma LivePage(s: State, a: nat)
      requires Spec.Live(s, a)
      ensures Spec.PageOf(a) < |s.usage|
    {
    }

    lemma NotSmall(s: State, a: nat)
      requires Spec.Live(s, a) && Spec.PageOf(a) < |s.usage| && s.usage[Spec.PageOf(a)].LargePage?
      ensures Spec.LiveLarge(s, a)
    {
    }

    method FreePages(a: nat)
      requires Valid() && Spec.LiveLarge(Now(), a)
      modifies pages, pages.next, pages.count, memusage
      ensures Valid() && Now() == Spec.FreeLarge(old(Now()), Spec.PageOf(a))
    {
      ghost var s := Now();
      var p := a / PAGE;
      Theorems.FreeLargeKeeps(s, zp, a);
      LargeGiven(s.usage, s.runs, Spec.ZoneSet(zones, zoneFree), zp, p);
      hide Spec.Inv;
      var n := memusage[p].pages;
      memusage[p] := LargePage(0);
      pages.Release(p, n);
    }

    /** The chunk joins the returned ones; a zone that had no room is listed again. */
    method ReturnChunk(p: nat, a: nat)
      requires Valid() && p in zones && Busy(zones[p], a)
      modifies this
      ensures Valid() && p in zones && zones[p].index < |old(lists)| && Now() == Spec.FreeChunk(old(Now()), p, a)
    {
      ghost var s := Now();
      hide Spec.Inv, Busy, ZoneOk;
      Theorems.FreeChunkKeeps(s, zp, p, a);
      var z := zones[p];
      z := z.(free := [a] + z.free);
      if z.nfree == 0 { lists := lists[z.index := [p] + lists[z.index]]; }
      z := z.(nfree := z.nfree + 1);
      zones := zones[p := z];
    }

    /** An entirely free zone that is not alone on its list. */
    method GiveUp(p: nat)
      requires Valid() && p in zones
      modifies this, pages, pages.next, pages.count, memusage
      ensures Valid() && p in old(zones) && old(zones[p].index < |lists|) && Now() == Spec.Retire(old(Now()), zp, p)
    {
      ghost var s := Now();
      Theorems.RetireKeeps(s, zp, p);
      Listed(p);
      ZoneGiven(s.usage, s.runs, Spec.ZoneSet(zones, zoneFree), zp, p);
      hide Spec.Inv;
      var z := zones[p];
      if z.nfree != z.nmax || lists[z.index] == [p] { return; }
      var list := Unlinked(lists[z.index], p);
      lists := lists[z.index := list];
      zones := zones - {p};
      zoneFree, freeCnt := [p] + zoneFree, freeCnt + 1;
      if freeCnt > RELEASE_THRESH { ReleaseZone(); }
    }

    /** The zone that came last into reserve goes back to the page allocator. */
    method ReleaseZone()
      requires pages.Valid() && pages.next.Length == memusage.Length && zoneFree != [] && freeCnt > 0
      requires ZonePages(zp) && AllTaken(pages.runs, zoneFree[0], zp) && zoneFree[0] + zp <= memusage.Length
      modifies this`zoneFree, this`freeCnt, pages, pages.next, pages.count, memusage
      ensures pages.Valid() && zoneFree == old(zoneFree)[1..] && freeCnt == old(freeCnt) - 1
      ensures memusage[..] == ClearZone(old(memusage[..]), old(zoneFree)[0], zp)
      ensures pages.runs == Give(old(pages.runs), old(zoneFree)[0], zp)
    {
      var q := zoneFree[0];
      zoneFree, freeCnt := zoneFree[1..], freeCnt - 1;
      ClearPages(q);
      pages.Release(q, zp);
    }

    lemma Listed(p: nat)
      requires Valid() && p in zones
      ensures ZonePages(zp) && zones[p].index < |lists|
      ensures zones[p].nfree == zones[p].nmax ==> p in lists[zones[p].index] && NoDup(lists[zones[p].index])
    {
      assert ZoneOk(zones[p], p, zp);
      assert Spec.ListOk(lists[zones[p].index], zones, zones[p].index);
    }
  }
}
