/** rt-thread/src/slab.c, zones, specification. Addresses are byte offsets from
    heap_start; a zone is named by the number of its first page. */
module SlabZoneSpec {
  import opened Bits
  import opened Common
  import opened Lists
  import opened SlabPageSpec

  const PAGE: nat := 4096              // RT_MM_PAGE_SIZE
  const ZONE_HEADER: nat := 36         // sizeof(slab_zone)
  const NZONES: nat := 72
  const RELEASE_THRESH: nat := 2       // ZONE_RELEASE_THRESH

  /** free is z_freechunk: the addresses of the returned chunks, last returned first. */
  datatype Zone = Zone(nfree: nat, nmax: nat, base: nat, uindex: nat, chunk: nat, index: nat, free: seq<nat>)

  /** One memusage entry. */
  datatype Usage = FreePage | SmallPage(off: nat) | LargePage(pages: nat)

  datatype State = State(zones: map<nat, Zone>, lists: seq<seq<nat>>, zoneFree: seq<nat>, freeCnt: nat,
                         usage: seq<Usage>, runs: seq<PageRun>)

  /** zone_page_cnt: rt_system_heap_init makes zones of 32, 64 or 128 KB. */
  predicate ZonePages(zp: nat) { zp == 8 || zp == 16 || zp == 32 }

  function ZoneSize(zp: nat): nat { zp * PAGE }

  function ZoneLimit(zp: nat): nat { if ZoneSize(zp) / 4 > 16384 then 16384 else ZoneSize(zp) / 4 }

  // ---------------------------------------------------------------- zoneindex

  function RoundUp(n: nat, unit: nat): nat
    requires unit > 0
  {
    (n + unit - 1) - (n + unit - 1) % unit
  }

  /** zoneindex: the zone index and the chunk size of a request. */
  function ZoneIndex(n: nat): (int, nat) {
    if n < 128 then (RoundUp(n, 8) / 8 - 1, RoundUp(n, 8))
    else if n < 256 then (RoundUp(n, 16) / 16 + 7, RoundUp(n, 16))
    else if n < 512 then (RoundUp(n, 32) / 32 + 15, RoundUp(n, 32))
    else if n < 1024 then (RoundUp(n, 64) / 64 + 23, RoundUp(n, 64))
    else if n < 2048 then (RoundUp(n, 128) / 128 + 31, RoundUp(n, 128))
    else if n < 4096 then (RoundUp(n, 256) / 256 + 39, RoundUp(n, 256))
    else if n < 8192 then (RoundUp(n, 512) / 512 + 47, RoundUp(n, 512))
    else if n < 16384 then (RoundUp(n, 1024) / 1024 + 55, RoundUp(n, 1024))
    else (0, n)
  }

  /** The chunk size that goes with an index. */
  function ChunkOf(i: nat): nat {
    if i < 16 then 8 * (i + 1)
    else if i < 24 then 16 * (i - 7)
    else if i < 32 then 32 * (i - 15)
    else if i < 40 then 64 * (i - 23)
    else if i < 48 then 128 * (i - 31)
    else if i < 56 then 256 * (i - 39)
    else if i < 64 then 512 * (i - 47)
    else 1024 * (i - 55)
  }

  lemma Rounded(n: nat, unit: nat)
    requires unit > 0
    ensures n <= RoundUp(n, unit) < n + unit
    ensures RoundUp(n, unit) == unit * ((n + unit - 1) / unit)
  {
    var x := n + unit - 1;
    assert x == unit * (x / unit) + x % unit;
  }

  /** Rounded up, n is m whole units. */
  lemma InUnits(n: nat, unit: nat) returns (m: nat)
    requires unit > 0
    ensures RoundUp(n, unit) == unit * m && RoundUp(n, unit) / unit == m && n <= unit * m < n + unit
  {
    Rounded(n, unit);
    m := (n + unit - 1) / unit;
    var x := unit * m;
    assert x == unit * (x / unit) + x % unit;
    Scaled(unit, m + 1, x / unit);
    Scaled(unit, x / unit, m - 1);
  }

  lemma ZoneIndexSmall(n: nat)
    requires 0 < n < 512
    ensures var (i, c) := ZoneIndex(n);
      0 <= i < 32 && c == ChunkOf(i) && n <= c <= 512 && c % 8 == 0 && 8 * (c - n) <= n + 64
  {
    hide RoundUp;
    if n < 128 {
      var m := InUnits(n, 8);
    } else if n < 256 {
      var m := InUnits(n, 16);
    } else {
      var m := InUnits(n, 32);
    }
  }

  lemma ZoneIndexMiddle(n: nat)
    requires 512 <= n < 4096
    ensures var (i, c) := ZoneIndex(n);
      31 <= i < 56 && c == ChunkOf(i) && n <= c <= 4096 && c % 8 == 0 && 8 * (c - n) <= n + 64
  {
    hide RoundUp;
    if n < 1024 {
      var m := InUnits(n, 64);
    } else if n < 2048 {
      var m := InUnits(n, 128);
    } else {
      var m := InUnits(n, 256);
    }
  }

  lemma ZoneIndexLarge(n: nat)
    requires 4096 <= n < 16384
    ensures var (i, c) := ZoneIndex(n);
      55 <= i < NZONES && c == ChunkOf(i) && n <= c <= 16384 && c % 8 == 0 && 8 * (c - n) <= n + 64
      && (n < 8192 ==> c <= 8192)
  {
    hide RoundUp;
    if n < 8192 {
      var m := InUnits(n, 512);
    } else {
      var m := InUnits(n, 1024);
    }
  }

  /** Every request below the limit gets an index inside the table and a chunk that is
      large enough and at most an eighth, or eight bytes, too large; an index stands for
      one chunk size. */
  lemma ZoneIndexIs(n: nat)
    requires 0 < n < 16384
    ensures var (i, c) := ZoneIndex(n);
      0 <= i < NZONES && c == ChunkOf(i) && n <= c <= 16384 && c % 8 == 0 && 8 * (c - n) <= n + 64
      && (n < 8192 ==> c <= 8192)
  {
    hide ZoneIndex, ChunkOf;
    if n < 512 { ZoneIndexSmall(n); } else if n < 4096 { ZoneIndexMiddle(n); } else { ZoneIndexLarge(n); }
  }

  /** The source's bit test: (size | (size - 1)) + 1 == (size << 1). */
  predicate PowerOfTwo(c: nat)
    requires c > 0
  {
    Or(c, c - 1) + 1 == 2 * c
  }

  /** Where the chunks of a new zone start: behind the header, aligned to the chunk size
      if that is a power of two, to eight bytes otherwise. */
  function FirstChunk(c: nat): nat
    requires c > 0
  {
    if PowerOfTwo(c) then RoundUp(ZONE_HEADER, c) else RoundUp(ZONE_HEADER, 8)
  }

  // ---------------------------------------------------------------- one zone

  /** The address of chunk k. */
  function ChunkAt(z: Zone, k: nat): nat { Multiple(z.base, z.chunk, k) }

  /** base + k * chunk. */
  function Multiple(base: nat, chunk: nat, k: nat): nat {
    if k == 0 then base else Multiple(base, chunk, k - 1) + chunk
  }

  /** How many chunks fit between off and the end of the zone. */
  function Room(zone: nat, off: nat, c: nat): nat
    requires c > 0
  {
    if zone >= off then (zone - off) / c else 0
  }

  /** A new zone that has handed out its first chunk. */
  function NewZone(p: nat, zp: nat, i: nat, c: nat): Zone
    requires c > 0
  {
    var off := FirstChunk(c);
    var nmax := Room(ZoneSize(zp), off, c);
    Zone(if nmax > 0 then nmax - 1 else 0, nmax, p * PAGE + off, 0, c, i, [])
  }

  /** A chunk from a zone with room: never used space first, then the last returned. */
  function ZoneTake(z: Zone): (Zone, nat)
    requires z.nfree > 0 && (z.uindex + 1 == z.nmax ==> z.free != [])
  {
    if z.uindex + 1 != z.nmax then (z.(nfree := z.nfree - 1, uindex := z.uindex + 1), ChunkAt(z, z.uindex + 1))
    else (z.(nfree := z.nfree - 1, free := z.free[1..]), z.free[0])
  }

  function ZoneGive(z: Zone, a: nat): Zone { z.(nfree := z.nfree + 1, free := [a] + z.free) }

  /** a is chunk k of the zone, for some k that was ever handed out. */
  ghost predicate Handed(z: Zone, a: nat) {
    exists k: nat {:trigger ChunkAt(z, k)} :: k <= z.uindex && a == ChunkAt(z, k)
  }

  /** a is in use. */
  ghost predicate Busy(z: Zone, a: nat) { Handed(z, a) && a !in z.free }

  /** Chunks lie inside the zone, behind the header; what is free is either never used
      or on the list of returned chunks, each once. */
  ghost predicate ZoneOk(z: Zone, p: nat, zp: nat) {
    && z.index < NZONES && z.chunk == ChunkOf(z.index) && 0 < z.chunk <= 16384 && 2 <= z.nmax && z.uindex < z.nmax
    && z.base == p * PAGE + FirstChunk(z.chunk) && z.base >= p * PAGE + ZONE_HEADER
        && ChunkAt(z, z.nmax) <= (p + zp) * PAGE
    && z.nfree == z.nmax - 1 - z.uindex + |z.free|
    && NoDup(z.free)
    && forall i {:trigger z.free[i]} :: 0 <= i < |z.free| ==> Handed(z, z.free[i])
  }

  /** Chunks with different numbers do not overlap. */
  lemma {:induction false} ChunksApart(z: Zone, j: nat, k: nat)
    requires j < k
    ensures ChunkAt(z, j) + z.chunk <= ChunkAt(z, k)
  {
    if j < k - 1 { ChunksApart(z, j, k - 1); }
  }

  lemma {:induction false} ChunkProduct(z: Zone, k: nat)
    ensures ChunkAt(z, k) == z.base + k * z.chunk
  {
    if k > 0 { ChunkProduct(z, k - 1); }
  }

  lemma ChunkInside(z: Zone, p: nat, zp: nat, k: nat)
    requires ZoneOk(z, p, zp) && k < z.nmax
    ensures p * PAGE + ZONE_HEADER <= ChunkAt(z, k) && ChunkAt(z, k) + z.chunk <= (p + zp) * PAGE
  {
    ChunksApart(z, k, z.nmax);
    if k > 0 { ChunksApart(z, 0, k); }
  }

  lemma SameChunk(z: Zone, j: nat, k: nat)
    requires ChunkAt(z, j) == ChunkAt(z, k) && z.chunk > 0
    ensures j == k
  {
    if j < k { ChunksApart(z, j, k); }
    if k < j { ChunksApart(z, k, j); }
  }

  lemma NewZoneOk(p: nat, zp: nat, n: nat)
    requires ZonePages(zp) && 0 < n < ZoneLimit(zp)
    ensures var (i, c) := ZoneIndex(n);
      && 0 <= i && c > 0 && ZoneOk(NewZone(p, zp, i, c), p, zp)
      && NewZone(p, zp, i, c).nfree > 0
      && Busy(NewZone(p, zp, i, c), NewZone(p, zp, i, c).base)
  {
    ZoneIndexIs(n);
    var (i, c) := ZoneIndex(n);
    LimitFits(n, zp);
    FirstChunkIs(c);
    var z := NewZone(p, zp, i, c);
    Division(ZoneSize(zp) - FirstChunk(c), c);
    ChunkProduct(z, z.nmax);
    assert ChunkAt(z, 0) == z.base;
    assert (p + zp) * PAGE == p * PAGE + ZoneSize(zp);
  }

  lemma LimitFits(n: nat, zp: nat)
    requires ZonePages(zp) && 0 < n < ZoneLimit(zp)
    ensures n < 16384 && 4 * ZoneIndex(n).1 <= ZoneSize(zp)
  {
    hide ZoneIndex;
    ZoneIndexIs(n);
  }

  lemma FirstChunkIs(c: nat)
    requires 0 < c <= 16384
    ensures ZONE_HEADER <= FirstChunk(c) <= 44 + c
    ensures PowerOfTwo(c) ==> FirstChunk(c) == c * ((ZONE_HEADER + c - 1) / c)
  {
    hide RoundUp, PowerOfTwo;
    Rounded(ZONE_HEADER, c);
    Rounded(ZONE_HEADER, 8);
  }

  lemma Twice(q: nat, c: nat)
    ensures q < 2 ==> q * c <= c
  {
  }

  lemma Division(a: nat, c: nat)
    requires c > 0 && a >= 2 * c
    ensures a / c >= 2 && a / c * c <= a
  {
    assert a == a / c * c + a % c;
    Twice(a / c, c);
  }

  lemma TakeOk(z: Zone, p: nat, zp: nat)
    requires ZoneOk(z, p, zp) && z.nfree > 0
    ensures z.uindex + 1 == z.nmax ==> z.free != []
    ensures ZoneOk(ZoneTake(z).0, p, zp)
  {
    var z1 := ZoneTake(z).0;
    if z.uindex + 1 == z.nmax { HeadGone(z.free); }
    forall i | 0 <= i < |z1.free|
      ensures Handed(z1, z1.free[i])
    {
      var j := if z.uindex + 1 == z.nmax then i + 1 else i;
      assert Handed(z, z.free[j]);
      var k: nat :| k <= z.uindex && z.free[j] == ChunkAt(z, k);
      assert ChunkAt(z1, k) == ChunkAt(z, k);
    }
  }

  /** What is in use after a chunk was taken: that chunk, which was not, and all that
      was in use before. */
  lemma TakeBusy(z: Zone, p: nat, zp: nat, b: nat)
    requires ZoneOk(z, p, zp) && z.nfree > 0
    ensures z.uindex + 1 == z.nmax ==> z.free != []
    ensures var (z1, a) := ZoneTake(z); (Busy(z1, b) <==> Busy(z, b) || b == a) && !Busy(z, a)
  {
    TakeOk(z, p, zp);
    var (z1, a) := ZoneTake(z);
    HandedMore(z, z1, b);
    if z.uindex + 1 != z.nmax {
      assert ChunkAt(z1, z.uindex + 1) == a;
      NewlyHanded(z, a);
    } else {
      HeadGone(z.free);
      assert z.free[0] in z.free && Handed(z, z.free[0]);
    }
  }

  lemma NewlyHanded(z: Zone, a: nat)
    requires a == ChunkAt(z, z.uindex + 1) && z.chunk > 0
    ensures !Handed(z, a)
  {
    forall k: nat | k <= z.uindex
      ensures ChunkAt(z, k) != a
    {
      if ChunkAt(z, k) == a { SameChunk(z, k, z.uindex + 1); }
    }
  }

  lemma HandedMore(z: Zone, z1: Zone, b: nat)
    requires z1.base == z.base && z1.chunk == z.chunk && z.uindex <= z1.uindex <= z.uindex + 1
    ensures Handed(z1, b) <==> Handed(z, b) || (z1.uindex > z.uindex && b == ChunkAt(z, z.uindex + 1))
  {
    if Handed(z, b) {
      var k: nat :| k <= z.uindex && b == ChunkAt(z, k);
      assert ChunkAt(z1, k) == b;
    }
    if z1.uindex > z.uindex && b == ChunkAt(z, z.uindex + 1) { assert ChunkAt(z1, z1.uindex) == b; }
    if Handed(z1, b) {
      var k: nat :| k <= z1.uindex && b == ChunkAt(z1, k);
      assert ChunkAt(z, k) == b;
    }
  }

  lemma GiveOk(z: Zone, p: nat, zp: nat, a: nat)
    requires ZoneOk(z, p, zp) && Busy(z, a)
    ensures ZoneOk(ZoneGive(z, a), p, zp)
  {
    var z1 := ZoneGive(z, a);
    InsertMembers(z.free, a, 0);
    assert Insert(z.free, a, 0) == z1.free;
    forall i | 0 <= i < |z1.free|
      ensures Handed(z1, z1.free[i])
    {
      assert i > 0 ==> Handed(z, z.free[i - 1]);
      HandedMore(z, z1, z1.free[i]);
    }
  }

  lemma GiveBusy(z: Zone, p: nat, zp: nat, a: nat, b: nat)
    requires ZoneOk(z, p, zp) && Busy(z, a)
    ensures Busy(ZoneGive(z, a), b) <==> Busy(z, b) && b != a
  {
    HandedMore(z, ZoneGive(z, a), b);
  }

  /** A zone counts as entirely free exactly when nothing in it is in use. */
  lemma FullyFreeIff(z: Zone, p: nat, zp: nat)
    requires ZoneOk(z, p, zp)
    ensures z.nfree <= z.nmax
    ensures z.nfree == z.nmax <==> forall a: nat {:trigger Busy(z, a)} :: !Busy(z, a)
  {
    hide Chunks;
    var returned := Members(z.free);
    var handed := Chunks(z, z.uindex + 1);
    AllHanded(z, p, zp);
    ChunksCount(z, z.uindex + 1);
    ListCount(z.free);
    Within(returned, handed);
    if returned == handed {
      forall a: nat
        ensures !Busy(z, a)
      {
        assert Handed(z, a) ==> a in returned;
      }
    }
    if forall a: nat {:trigger Busy(z, a)} :: !Busy(z, a) {
      forall x | x in handed
        ensures x in returned
      {
        assert !Busy(z, x);
      }
      assert returned == handed;
    }
  }

  /** The chunks handed out so far, as a set; the returned ones are among them. */
  lemma AllHanded(z: Zone, p: nat, zp: nat)
    requires ZoneOk(z, p, zp)
    ensures Members(z.free) <= Chunks(z, z.uindex + 1)
    ensures forall a: nat {:trigger Handed(z, a)} :: Handed(z, a) <==> a in Chunks(z, z.uindex + 1)
  {
    forall a: nat
      ensures Handed(z, a) <==> a in Chunks(z, z.uindex + 1)
    {
      ChunksHave(z, z.uindex + 1, a);
      if Handed(z, a) { var k: nat :| k <= z.uindex && a == ChunkAt(z, k); }
    }
    forall x | x in Members(z.free)
      ensures x in Chunks(z, z.uindex + 1)
    {
      var i :| 0 <= i < |z.free| && z.free[i] == x;
      assert Handed(z, z.free[i]);
    }
  }

  function Chunks(z: Zone, n: nat): set<nat> {
    if n == 0 then {} else Chunks(z, n - 1) + {ChunkAt(z, n - 1)}
  }

  lemma {:induction false} ChunksHave(z: Zone, n: nat, a: nat)
    ensures a in Chunks(z, n) <==> exists k: nat {:trigger ChunkAt(z, k)} :: k < n && a == ChunkAt(z, k)
  {
    if n > 0 {
      ChunksHave(z, n - 1, a);
      assert a == ChunkAt(z, n - 1) ==> n - 1 < n;
    }
  }

  lemma {:induction false} ChunksCount(z: Zone, n: nat)
    requires z.chunk > 0
    ensures |Chunks(z, n)| == n
  {
    if n > 0 {
      ChunksCount(z, n - 1);
      ChunksHave(z, n - 1, ChunkAt(z, n - 1));
      forall k: nat | k < n - 1
        ensures ChunkAt(z, k) != ChunkAt(z, n - 1)
      {
        if ChunkAt(z, k) == ChunkAt(z, n - 1) { SameChunk(z, k, n - 1); }
      }
    }
  }

  function Members(list: seq<nat>): set<nat> { set x | x in list }

  lemma {:induction false} ListCount(list: seq<nat>)
    requires NoDup(list)
    ensures |Members(list)| == |list|
  {
    if list == [] {
      assert Members(list) == {};
    } else {
      HeadGone(list);
      ListCount(list[1..]);
      assert Members(list) == Members(list[1..]) + {list[0]};
    }
  }

  lemma Within(a: set<nat>, b: set<nat>)
    requires a <= b
    ensures |a| <= |b| && (|a| == |b| <==> a == b)
  {
    assert b == a + (b - a);
    assert |b| == |a| + |b - a|;
    if |b - a| == 0 { assert b - a == {}; }
  }
}
