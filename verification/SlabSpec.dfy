/** rt-thread/src/slab.c: rt_malloc and rt_free over zones, large blocks and pages, and
    what every run of them keeps. Counting statistics are not part of this model. */
module SlabSpec {
  import opened Common
  import opened Lists
  import opened SlabPageSpec
  import opened SlabZoneSpec
  import opened SlabUsage

  // ---------------------------------------------------------------- the invariant

  function ZoneSet(zones: map<nat, Zone>, zoneFree: seq<nat>): set<nat> { zones.Keys + Members(zoneFree) }

  /** Zones with room, exactly, are on the list of their index, once. */
  ghost predicate ListOk(list: seq<nat>, zones: map<nat, Zone>, i: nat) {
    && NoDup(list)
    && forall p: nat {:trigger p in list} :: p in list <==> p in zones && zones[p].index == i && zones[p].nfree > 0
  }

  ghost predicate ArrayOk(lists: seq<seq<nat>>, zones: map<nat, Zone>) {
    |lists| == NZONES && forall i {:trigger ListOk(lists[i], zones, i)} ::
        0 <= i < NZONES ==> ListOk(lists[i], zones, i)
  }

  ghost predicate AllZonesOk(zones: map<nat, Zone>, zp: nat) {
    forall p {:trigger zones[p]} :: p in zones ==> ZoneOk(zones[p], p, zp)
  }

  ghost predicate Inv(s: State, zp: nat) {
    && PagesOk(s.usage, s.runs, ZoneSet(s.zones, s.zoneFree), zp)
    && AllZonesOk(s.zones, zp) && ArrayOk(s.lists, s.zones)
    && NoDup(s.zoneFree) && s.freeCnt == |s.zoneFree| && s.freeCnt <= RELEASE_THRESH
    && forall p {:trigger p in s.zoneFree} :: p in s.zoneFree ==> p !in s.zones
  }

  // ---------------------------------------------------------------- what is allocated

  function PageOf(a: nat): nat { a / PAGE }

  predicate LiveLarge(s: State, a: nat) {
    a % PAGE == 0 && PageOf(a) < |s.usage| && s.usage[PageOf(a)].LargePage? && s.usage[PageOf(a)].pages > 0
  }

  /** The zone of the page an address lies in, found as the code finds it. */
  ghost predicate InZone(s: State, a: nat, p: nat) {
    PageOf(a) < |s.usage| && s.usage[PageOf(a)].SmallPage? && p + s.usage[PageOf(a)].off == PageOf(a)
  }

  ghost predicate LiveSmall(s: State, a: nat) {
    exists p: nat {:trigger s.zones[p]} :: p in s.zones && InZone(s, a, p) && Busy(s.zones[p], a)
  }

  ghost predicate Live(s: State, a: nat) { LiveLarge(s, a) || LiveSmall(s, a) }

  // ---------------------------------------------------------------- rt_malloc

  /** RT_ALIGN(size, RT_MM_PAGE_SIZE) >> RT_MM_PAGE_BITS. */
  function PagesFor(size: nat): nat { (size + PAGE - 1) % WORD_RANGE / PAGE }

  function MallocLarge(s: State, n: nat): (State, Option<nat>) {
    var (r, a) := Take(s.runs, n);
    if a.None? || a.value >= |s.usage| then (s, None)
    else (s.(runs := r, usage := s.usage[a.value := LargePage(n)]), Some(a.value * PAGE))
  }

  /** A chunk from the first zone on a list. */
  ghost function MallocChunk(s: State, zp: nat, i: nat): (State, nat)
    requires Inv(s, zp) && i < NZONES && s.lists[i] != []
  {
    var p := s.lists[i][0];
    HeadZone(s, zp, i);
    TakeOk(s.zones[p], p, zp);
    var (z1, a) := ZoneTake(s.zones[p]);
    (s.(zones := s.zones[p := z1], lists := if z1.nfree == 0 then s.lists[i := s.lists[i][1..]] else s.lists), a)
  }

  lemma HeadZone(s: State, zp: nat, i: nat)
    requires Inv(s, zp) && i < NZONES && s.lists[i] != []
    ensures var p := s.lists[i][0];
        p in s.zones && s.zones[p].index == i && s.zones[p].nfree > 0 && ZoneOk(s.zones[p], p, zp)
  {
    assert ListOk(s.lists[i], s.zones, i) && s.lists[i][0] in s.lists[i];
  }

  /** A zone to be set up: one kept in reserve, or new pages. */
  function GetZone(s: State, zp: nat): (State, Option<nat>) {
    if s.zoneFree != []
        then (s.(zoneFree := s.zoneFree[1..], freeCnt := if s.freeCnt > 0 then s.freeCnt - 1 else 0),
        Some(s.zoneFree[0]))
    else
      var (r, p) := Take(s.runs, zp);
      if p.None? then (s, None) else (s.(runs := r, usage := MarkZone(s.usage, p.value, zp)), p)
  }

  function SetUp(s: State, zp: nat, p: nat, i: nat, c: nat): State
    requires c > 0 && i < |s.lists|
  {
    s.(zones := s.zones[p := NewZone(p, zp, i, c)], lists := s.lists[i := [p] + s.lists[i]])
  }

  ghost function Malloc(s: State, zp: nat, size: nat): (State, Option<nat>)
    requires Inv(s, zp)
  {
    if size == 0 then (s, None)
    else if size >= ZoneLimit(zp) then MallocLarge(s, PagesFor(size))
    else
      ZoneIndexIs(size);
      var (i, c) := ZoneIndex(size);
      if s.lists[i] != [] then
        var (s1, a) := MallocChunk(s, zp, i);
        (s1, Some(a))
      else
        var (s1, p) := GetZone(s, zp);
        if p.None? then (s1, None) else (SetUp(s1, zp, p.value, i, c), Some(p.value * PAGE + FirstChunk(c)))
  }

  // ---------------------------------------------------------------- rt_free

  function FreeLarge(s: State, p: nat): State
    requires p < |s.usage| && s.usage[p].LargePage?
  {
    s.(usage := s.usage[p := LargePage(0)], runs := Give(s.runs, p, s.usage[p].pages))
  }

  /** The chunk goes back to zone p, which goes back to its list if it was full. */
  function FreeChunk(s: State, p: nat, a: nat): State
    requires p in s.zones && s.zones[p].index < |s.lists|
  {
    var z, i := s.zones[p], s.zones[p].index;
    s.(zones := s.zones[p := ZoneGive(z, a)], lists := if z.nfree == 0 then s.lists[i := [p] + s.lists[i]] else s.lists)
  }

  /** An entirely free zone leaves its list if that holds another zone; more than two in
      reserve, and it is released. */
  function Retire(s: State, zp: nat, p: nat): State
    requires p in s.zones && s.zones[p].index < |s.lists|
  {
    var z, i := s.zones[p], s.zones[p].index;
    if z.nfree != z.nmax || s.lists[i] == [p] then s
    else
      var s1 := s.(zones := s.zones - {p}, lists := s.lists[i := Without(s.lists[i], p)]);
      if s.freeCnt + 1 > RELEASE_THRESH then s1.(usage := ClearZone(s.usage, p, zp), runs := Give(s.runs, p, zp))
      else s1.(zoneFree := [p] + s.zoneFree, freeCnt := s.freeCnt + 1)
  }

  ghost function FreeAddr(s: State, zp: nat, a: nat): State
    requires Inv(s, zp) && Live(s, a)
  {
    if LiveLarge(s, a) then FreeLarge(s, PageOf(a))
    else
      var p := PageOf(a) - s.usage[PageOf(a)].off;
      assert AllZonesOk(s.zones, zp);
      Retire(FreeChunk(s, p, a), zp, p)
  }

  // ---------------------------------------------------------------- a zone is recovered from any chunk

  lemma PageInside(p: nat, zp: nat, a: nat)
    requires p * PAGE <= a < (p + zp) * PAGE
    ensures p <= PageOf(a) < p + zp
  {
  }

  /** Any byte of any chunk leads to its zone. */
  lemma Recovered(s: State, zp: nat, p: nat, k: nat, b: nat)
    requires Inv(s, zp) && p in s.zones && k < s.zones[p].nmax && b < s.zones[p].chunk
    ensures InZone(s, ChunkAt(s.zones[p], k) + b, p)
  {
    var z := s.zones[p];
    assert ZoneOk(z, p, zp);
    ChunkInside(z, p, zp, k);
    PageInside(p, zp, ChunkAt(z, k) + b);
    assert p in ZoneSet(s.zones, s.zoneFree);
    MarkedAt(s.usage, p, zp, PageOf(ChunkAt(z, k) + b));
  }

  /** Being in use in a zone is all it takes to be live. */
  lemma BusyIsLive(s: State, zp: nat, p: nat, a: nat)
    requires Inv(s, zp) && p in s.zones
    ensures Busy(s.zones[p], a) ==> InZone(s, a, p) && LiveSmall(s, a)
  {
    var z := s.zones[p];
    assert ZoneOk(z, p, zp);
    if Busy(z, a) {
      var k: nat :| k <= z.uindex && a == ChunkAt(z, k);
      Recovered(s, zp, p, k, 0);
    }
  }

  /** So the live small allocations are the busy chunks of the zones. */
  lemma LiveSmallIff(s: State, zp: nat, a: nat)
    requires Inv(s, zp)
    ensures LiveSmall(s, a) <==> exists p: nat {:trigger s.zones[p]} :: p in s.zones && Busy(s.zones[p], a)
  {
    if p: nat :| p in s.zones && Busy(s.zones[p], a) { BusyIsLive(s, zp, p, a); }
  }

  lemma BusyInOne(s: State, zp: nat, p: nat, q: nat, a: nat)
    requires Inv(s, zp) && p in s.zones && q in s.zones && Busy(s.zones[p], a) && Busy(s.zones[q], a)
    ensures p == q
  {
    BusyIsLive(s, zp, p, a);
    BusyIsLive(s, zp, q, a);
  }

  // ---------------------------------------------------------------- lists of zones

  /** Zone p changes, but not which list it belongs on, or whether. */
  lemma SameLists(lists: seq<seq<nat>>, zones: map<nat, Zone>, p: nat, z: Zone)
    requires ArrayOk(lists, zones) && p in zones && z.index == zones[p].index && (z.nfree > 0 <==> zones[p].nfree > 0)
    ensures ArrayOk(lists, zones[p := z])
  {
    forall i | 0 <= i < NZONES
      ensures ListOk(lists[i], zones[p := z], i)
    {
      assert ListOk(lists[i], zones, i);
    }
  }

  /** Zone p fills up, or goes away, and is taken off its list. */
  lemma OffList(lists: seq<seq<nat>>, zones: map<nat, Zone>, zones1: map<nat, Zone>, p: nat)
    requires ArrayOk(lists, zones) && p in zones && zones[p].index < NZONES
    requires forall q: nat {:trigger q in zones1} ::
        q != p ==> (q in zones1 <==> q in zones) && (q in zones ==> zones1[q] == zones[q])
    requires p in zones1 ==> zones1[p].nfree == 0
    ensures var i := zones[p].index; ArrayOk(lists[i := Without(lists[i], p)], zones1)
  {
    var k := zones[p].index;
    var a1 := lists[k := Without(lists[k], p)];
    WithoutMembers(lists[k], p);
    forall i | 0 <= i < NZONES
      ensures ListOk(a1[i], zones1, i)
    {
      assert ListOk(lists[i], zones, i);
    }
  }

  /** Zone p, on no list so far, is put in front of the list of its index. */
  lemma OnList(lists: seq<seq<nat>>, zones: map<nat, Zone>, p: nat, z: Zone)
    requires ArrayOk(lists, zones) && z.index < NZONES && z.nfree > 0 && (p in zones ==> zones[p].nfree == 0)
    ensures ArrayOk(lists[z.index := [p] + lists[z.index]], zones[p := z])
  {
    var k := z.index;
    var a1 := lists[k := [p] + lists[k]];
    assert ListOk(lists[k], zones, k);
    InsertMembers(lists[k], p, 0);
    assert Insert(lists[k], p, 0) == a1[k];
    forall i | 0 <= i < NZONES
      ensures ListOk(a1[i], zones[p := z], i)
    {
      assert ListOk(lists[i], zones, i);
    }
  }

  // ---------------------------------------------------------------- rt_malloc keeps the invariant

  lemma LargeKeeps(s: State, zp: nat, n: nat)
    requires Inv(s, zp)
    ensures Inv(MallocLarge(s, n).0, zp)
  {
    hide ArrayOk, PagesOk, AllZonesOk;
    if Take(s.runs, n).1.Some? { LargeTaken(s.usage, s.runs, ZoneSet(s.zones, s.zoneFree), zp, n); }
  }

  lemma ChunkKeeps(s: State, zp: nat, i: nat)
    requires Inv(s, zp) && i < NZONES && s.lists[i] != []
    ensures Inv(MallocChunk(s, zp, i).0, zp)
  {
    hide ArrayOk, PagesOk;
    InvPages(s, zp);
    HeadZone(s, zp, i);
    var p := s.lists[i][0];
    var z := s.zones[p];
    TakeOk(z, p, zp);
    var z1 := ZoneTake(z).0;
    var zones1 := s.zones[p := z1];
    assert ZoneSet(zones1, s.zoneFree) == ZoneSet(s.zones, s.zoneFree);
    if z1.nfree == 0 {
      ListHead(s, zp, i);
      OffList(s.lists, s.zones, zones1, p);
    } else {
      SameLists(s.lists, s.zones, p, z1);
    }
  }

  lemma ListHead(s: State, zp: nat, i: nat)
    requires Inv(s, zp) && i < NZONES && s.lists[i] != []
    ensures Without(s.lists[i], s.lists[i][0]) == s.lists[i][1..]
  {
    assert ListOk(s.lists[i], s.zones, i);
    HeadGone(s.lists[i]);
    NoneWithout(s.lists[i][1..], s.lists[i][0]);
  }

  /** The zone handed over is in no list; its pages are marked. */
  lemma GotZone(s: State, zp: nat)
    requires Inv(s, zp) && GetZone(s, zp).1.Some?
    ensures var (s1, q) := GetZone(s, zp); var p := q.value;
      && s1.zones == s.zones && s1.lists == s.lists && p !in s1.zones && p !in s1.zoneFree
      && PagesOk(s1.usage, s1.runs, ZoneSet(s1.zones, s1.zoneFree) + {p}, zp)
      && NoDup(s1.zoneFree) && s1.freeCnt == |s1.zoneFree| && s1.freeCnt <= RELEASE_THRESH
      && (forall x {:trigger x in s1.zoneFree} :: x in s1.zoneFree ==> x !in s1.zones)
  {
    hide PagesOk, ArrayOk, AllZonesOk;
    var s1 := GetZone(s, zp).0;
    if s.zoneFree != [] {
      HeadGone(s.zoneFree);
      var p := s.zoneFree[0];
      assert p in s.zoneFree;
      assert ZoneSet(s1.zones, s1.zoneFree) + {p} == ZoneSet(s.zones, s.zoneFree);
    } else {
      ZoneTaken(s.usage, s.runs, ZoneSet(s.zones, s.zoneFree), zp);
    }
  }

  lemma SetUpKeeps(s: State, zp: nat, size: nat)
    requires Inv(s, zp) && 0 < size < ZoneLimit(zp) && GetZone(s, zp).1.Some?
    ensures var (i, c) := ZoneIndex(size); var (s1, p) := GetZone(s, zp);
      0 <= i < |s1.lists| && c > 0 && Inv(SetUp(s1, zp, p.value, i, c), zp)
  {
    hide ArrayOk;
    var (i, c) := ZoneIndex(size);
    var (s1, q) := GetZone(s, zp);
    var p := q.value;
    GotZone(s, zp);
    NewZoneOk(p, zp, size);
    var z := NewZone(p, zp, i, c);
    ArrayLength(s);
    OnList(s1.lists, s1.zones, p, z);
    assert ZoneSet(s1.zones[p := z], s1.zoneFree) == ZoneSet(s1.zones, s1.zoneFree) + {p};
  }

  lemma ArrayLength(s: State)
    requires ArrayOk(s.lists, s.zones)
    ensures |s.lists| == NZONES
  {
  }

  lemma NoZoneKeeps(s: State, zp: nat)
    requires Inv(s, zp) && GetZone(s, zp).1.None?
    ensures GetZone(s, zp).0 == s
  {
  }

  lemma LimitBound(zp: nat, size: nat)
    requires ZonePages(zp) && 0 < size < ZoneLimit(zp)
    ensures size < 16384
  {
  }

  lemma MallocKeeps(s: State, zp: nat, size: nat)
    requires Inv(s, zp)
    ensures Inv(Malloc(s, zp, size).0, zp)
  {
    hide Inv, MallocLarge, GetZone, SetUp, ZoneIndex;
    InvPages(s, zp);
    if size >= ZoneLimit(zp) {
      LargeKeeps(s, zp, PagesFor(size));
    } else if size > 0 {
      LimitBound(zp, size);
      ZoneIndexIs(size);
      var i := ZoneIndex(size).0;
      if s.lists[i] != [] { ChunkKeeps(s, zp, i); }
      else if GetZone(s, zp).1.Some? { SetUpKeeps(s, zp, size); }
      else { NoZoneKeeps(s, zp); }
    }
  }

  lemma InvPages(s: State, zp: nat)
    requires Inv(s, zp)
    ensures ZonePages(zp) && |s.lists| == NZONES
  {
  }
}
