/** rt-thread/src/slab.c: the table of page descriptors, memusage, and what it says
    about zones, large blocks and free pages. */
module SlabUsage {
  import opened Common
  import opened Lists
  import opened SlabPageSpec
  import opened SlabZoneSpec

  predicate InUse(u: Usage) { u.SmallPage? || (u.LargePage? && u.pages > 0) }

  /** All pages of a zone know their distance from its first page. */
  ghost predicate ZoneMarked(usage: seq<Usage>, p: nat, zp: nat) {
    p + zp <= |usage| && forall i {:trigger usage[i]} :: p <= i < p + zp ==> usage[i] == SmallPage(i - p)
  }

  /** A descriptor tells the truth about its page, and a large block's about all of the
      block. zs are the zones, in use or kept in reserve. */
  ghost predicate PageOk(usage: seq<Usage>, runs: seq<PageRun>, zs: set<nat>, zp: nat, i: nat)
    requires i < |usage|
  {
    match usage[i]
    case FreePage => true
    case SmallPage(off) => off <= i && off < zp && i - off in zs && !Free(runs, i)
    case LargePage(k) =>
      k > 0 ==> i + k <= |usage| && !Free(runs, i) && forall j {:trigger usage[j]} ::
          i < j < i + k ==> !InUse(usage[j]) && !Free(runs, j)
  }

  ghost predicate RunsInside(runs: seq<PageRun>, n: nat) {
    forall p: nat {:trigger Free(runs, p)} :: Free(runs, p) ==> p < n
  }

  ghost predicate PagesOk(usage: seq<Usage>, runs: seq<PageRun>, zs: set<nat>, zp: nat) {
    && Canonical(runs) && RunsInside(runs, |usage|) && ZonePages(zp)
    && (forall p {:trigger p in zs} :: p in zs ==> ZoneMarked(usage, p, zp))
    && (forall i {:trigger PageOk(usage, runs, zs, zp, i)} :: 0 <= i < |usage| ==> PageOk(usage, runs, zs, zp, i))
  }

  /** kup->type = PAGE_TYPE_SMALL, kup->size = off, over the pages of a zone. */
  function MarkZone(usage: seq<Usage>, p: nat, zp: nat): seq<Usage> {
    seq(|usage|, i requires 0 <= i < |usage| => if p <= i < p + zp then SmallPage(i - p) else usage[i])
  }

  function ClearZone(usage: seq<Usage>, p: nat, zp: nat): seq<Usage> {
    seq(|usage|, i requires 0 <= i < |usage| => if p <= i < p + zp then FreePage else usage[i])
  }

  /** Free pages belong to no zone and no large block. */
  lemma FreeNotUsed(usage: seq<Usage>, runs: seq<PageRun>, zs: set<nat>, zp: nat, i: nat)
    requires PagesOk(usage, runs, zs, zp) && Free(runs, i)
    ensures i < |usage| && !InUse(usage[i])
  {
    assert PageOk(usage, runs, zs, zp, i);
  }

  lemma MarkedAt(usage: seq<Usage>, p: nat, zp: nat, i: nat)
    requires ZoneMarked(usage, p, zp)
    ensures p <= i < p + zp ==> i < |usage| && usage[i] == SmallPage(i - p)
  {
  }

  /** No large block reaches a free page. */
  lemma LargeAvoids(usage: seq<Usage>, runs: seq<PageRun>, zs: set<nat>, zp: nat, i: nat, a: nat)
    requires PagesOk(usage, runs, zs, zp) && i < |usage| && Free(runs, a)
    ensures usage[i].LargePage? ==> !(i <= a < i + usage[i].pages)
  {
    assert PageOk(usage, runs, zs, zp, i);
    assert a < |usage| && usage[a] == usage[a];
  }

  lemma FreshPages(usage: seq<Usage>, runs: seq<PageRun>, zs: set<nat>, zp: nat, n: nat)
    requires PagesOk(usage, runs, zs, zp) && Take(runs, n).1.Some?
    ensures var a := Take(runs, n).1.value;
      && a + n <= |usage| && n > 0
      && (forall i: nat {:trigger Free(runs, i)} :: a <= i < a + n ==> Free(runs, i))
      && (forall i {:trigger usage[i]} :: a <= i < a + n ==> !InUse(usage[i]))
      && (forall p {:trigger p in zs} :: p in zs ==> p + zp <= a || a + n <= p)
  {
    TakeIsSubtraction(runs, n);
    var a := Take(runs, n).1.value;
    assert Free(runs, a + n - 1) && Free(runs, a);
    forall i | a <= i < a + n
      ensures i < |usage| && !InUse(usage[i])
    {
      assert Free(runs, i);
      FreeNotUsed(usage, runs, zs, zp, i);
    }
    forall p | p in zs
      ensures p + zp <= a || a + n <= p
    {
      var i := if p < a then a else p;
      assert ZoneMarked(usage, p, zp);
      MarkedAt(usage, p, zp, i);
    }
  }

  lemma LargeTaken(usage: seq<Usage>, runs: seq<PageRun>, zs: set<nat>, zp: nat, n: nat)
    requires PagesOk(usage, runs, zs, zp) && Take(runs, n).1.Some?
    ensures var (r, a) := Take(runs, n); a.value < |usage| && PagesOk(usage[a.value := LargePage(n)], r, zs, zp)
  {
    hide Canonical, Take;
    FreshPages(usage, runs, zs, zp, n);
    TakeIsSubtraction(runs, n);
    var (r, b) := Take(runs, n);
    var a := b.value;
    var u1 := usage[a := LargePage(n)];
    forall i | 0 <= i < |u1|
      ensures PageOk(u1, r, zs, zp, i)
    {
      assert PageOk(usage, runs, zs, zp, i);
      assert a <= i < a + n ==> Free(runs, i);
      LargeAvoids(usage, runs, zs, zp, i, a);
      if u1[i].LargePage? && u1[i].pages > 0 {
        forall j | i < j < i + u1[i].pages
          ensures j < |u1| && !InUse(u1[j]) && !Free(r, j)
        {
          assert i != a ==> !InUse(usage[j]) && !Free(runs, j);
          assert i == a ==> !InUse(usage[j]) && Free(runs, j);
        }
      }
    }
    forall p | p in zs
      ensures ZoneMarked(u1, p, zp)
    {
      assert ZoneMarked(usage, p, zp);
    }
    assert RunsInside(r, |u1|);
  }

  lemma ZoneTaken(usage: seq<Usage>, runs: seq<PageRun>, zs: set<nat>, zp: nat)
    requires PagesOk(usage, runs, zs, zp) && Take(runs, zp).1.Some?
    ensures var (r, a) := Take(runs, zp); a.value !in zs && PagesOk(MarkZone(usage, a.value, zp), r, zs + {a.value}, zp)
  {
    hide Canonical, Take;
    FreshPages(usage, runs, zs, zp, zp);
    TakeIsSubtraction(runs, zp);
    var (r, b) := Take(runs, zp);
    var a := b.value;
    var u1 := MarkZone(usage, a, zp);
    forall i | 0 <= i < |u1|
      ensures PageOk(u1, r, zs + {a}, zp, i)
    {
      assert PageOk(usage, runs, zs, zp, i);
      if !(a <= i < a + zp) && usage[i].LargePage? && usage[i].pages > 0 {
        forall j | i < j < i + usage[i].pages
          ensures !InUse(u1[j]) && !Free(r, j)
        {
          assert !InUse(usage[j]) && !Free(runs, j);
        }
      }
    }
    forall p | p in zs + {a}
      ensures ZoneMarked(u1, p, zp)
    {
      if p in zs { assert ZoneMarked(usage, p, zp); }
    }
    assert RunsInside(r, |u1|);
  }

  lemma LargeGiven(usage: seq<Usage>, runs: seq<PageRun>, zs: set<nat>, zp: nat, p: nat)
    requires PagesOk(usage, runs, zs, zp) && p < |usage| && usage[p].LargePage? && usage[p].pages > 0
    ensures AllTaken(runs, p, usage[p].pages) && p + usage[p].pages <= |usage|
    ensures PagesOk(usage[p := LargePage(0)], Give(runs, p, usage[p].pages), zs, zp)
  {
    hide Canonical, Give;
    var k := usage[p].pages;
    assert PageOk(usage, runs, zs, zp, p);
    forall i: nat | p <= i < p + k
      ensures !Free(runs, i) && (i > p ==> !InUse(usage[i]))
    {
      assert i < |usage| && usage[i] == usage[i];
    }
    GiveIsUnion(runs, p, k);
    var r, u1 := Give(runs, p, k), usage[p := LargePage(0)];
    forall i | 0 <= i < |u1|
      ensures PageOk(u1, r, zs, zp, i)
    {
      assert PageOk(usage, runs, zs, zp, i);
      if u1[i].LargePage? && u1[i].pages > 0 {
        forall j | i < j < i + u1[i].pages
          ensures !InUse(u1[j]) && !Free(r, j)
        {
          LargesApart(usage, runs, zs, zp, p, i, j);
        }
      }
    }
    forall q | q in zs
      ensures ZoneMarked(u1, q, zp)
    {
      assert ZoneMarked(usage, q, zp);
    }
    assert RunsInside(r, |u1|);
  }

  /** Page j of the large block at i lies outside the one at p. */
  lemma LargesApart(usage: seq<Usage>, runs: seq<PageRun>, zs: set<nat>, zp: nat, p: nat, i: nat, j: nat)
    requires PagesOk(usage, runs, zs, zp) && p < |usage| && i < |usage| && p != i
    requires usage[p].LargePage? && usage[p].pages > 0 && usage[i].LargePage? && i < j < i + usage[i].pages
    ensures j < |usage| && !(p <= j < p + usage[p].pages) && !InUse(usage[j]) && !Free(runs, j)
  {
    assert PageOk(usage, runs, zs, zp, p) && PageOk(usage, runs, zs, zp, i);
    assert InUse(usage[p]) && InUse(usage[i]);
  }

  lemma ZoneGiven(usage: seq<Usage>, runs: seq<PageRun>, zs: set<nat>, zp: nat, p: nat)
    requires PagesOk(usage, runs, zs, zp) && p in zs
    ensures AllTaken(runs, p, zp) && p + zp <= |usage|
    ensures PagesOk(ClearZone(usage, p, zp), Give(runs, p, zp), zs - {p}, zp)
  {
    hide Canonical, Give;
    assert ZoneMarked(usage, p, zp);
    forall i: nat | p <= i < p + zp
      ensures !Free(runs, i)
    {
      assert PageOk(usage, runs, zs, zp, i);
    }
    GiveIsUnion(runs, p, zp);
    var r, u1 := Give(runs, p, zp), ClearZone(usage, p, zp);
    forall i | 0 <= i < |u1|
      ensures PageOk(u1, r, zs - {p}, zp, i)
    {
      assert PageOk(usage, runs, zs, zp, i);
      if u1[i].LargePage? && u1[i].pages > 0 {
        forall j | i < j < i + u1[i].pages
          ensures !InUse(u1[j]) && !Free(r, j)
        {
          assert !InUse(usage[j]) && !Free(runs, j);
        }
      }
    }
    forall q | q in zs - {p}
      ensures ZoneMarked(u1, q, zp)
    {
      assert ZoneMarked(usage, q, zp);
      ZonesApart(usage, p, q, zp);
    }
    assert RunsInside(r, |u1|);
  }

  lemma ZonesApart(usage: seq<Usage>, p: nat, q: nat, zp: nat)
    requires ZoneMarked(usage, p, zp) && ZoneMarked(usage, q, zp) && p != q
    ensures p + zp <= q || q + zp <= p
  {
    MarkedAt(usage, p, zp, q);
    MarkedAt(usage, q, zp, p);
    MarkedAt(usage, p, zp, p);
    MarkedAt(usage, q, zp, q);
  }
}
