/** rt-thread/src/slab.c, page allocator, specification: a list of runs of free pages.
    Pages are numbered from heap_start. */
module SlabPageSpec {
  import opened Common

  datatype PageRun = PageRun(start: nat, len: nat)

  predicate Holds(r: PageRun, p: nat) { r.start <= p < r.start + r.len }

  /** The free pages a list stands for. */
  ghost predicate Free(runs: seq<PageRun>, p: nat) {
    exists i {:trigger Holds(runs[i], p)} :: 0 <= i < |runs| && Holds(runs[i], p)
  }

  /** Run j lies behind run i, with at least one page between them. */
  predicate Gap(runs: seq<PageRun>, i: nat, j: nat)
    requires i < |runs| && j < |runs|
  {
    runs[i].start + runs[i].len < runs[j].start
  }

  /** Sorted by address, no empty run, and no two runs touch: every run is maximal. */
  ghost predicate Canonical(runs: seq<PageRun>) {
    && (forall i {:trigger runs[i]} :: 0 <= i < |runs| ==> runs[i].len > 0)
    && (forall i, j {:trigger Gap(runs, i, j)} :: 0 <= i < j < |runs| ==> Gap(runs, i, j))
  }

  /** First run from k on with at least n pages. */
  function FindRun(runs: seq<PageRun>, n: nat, k: nat): (r: nat)
    requires k <= |runs|
    ensures k <= r <= |runs|
    ensures r < |runs| ==> runs[r].len >= n
    ensures forall i {:trigger runs[i]} :: k <= i < r ==> runs[i].len < n
    decreases |runs| - k
  {
    if k == |runs| || runs[k].len >= n then k else FindRun(runs, n, k + 1)
  }

  /** rt_page_alloc: pages are cut off the low end of the run. */
  function Take(runs: seq<PageRun>, n: nat): (seq<PageRun>, Option<nat>) {
    var i := FindRun(runs, n, 0);
    if n == 0 || i == |runs| then (runs, None)
    else
      var b := runs[i];
      (if b.len > n then runs[i := PageRun(b.start + n, b.len - n)] else runs[..i] + runs[i + 1..], Some(b.start))
  }

  /** First run from k on that rt_page_free stops at: one it can join, or one behind. */
  function Place(runs: seq<PageRun>, a: nat, n: nat, k: nat): (r: nat)
    requires k <= |runs|
    ensures k <= r <= |runs|
    ensures forall i {:trigger runs[i]} :: k <= i < r ==> runs[i].start + runs[i].len != a && runs[i].start < a + n
    ensures r < |runs| ==> runs[r].start + runs[r].len == a || runs[r].start >= a + n
    decreases |runs| - k
  {
    if k == |runs| || runs[k].start + runs[k].len == a || runs[k].start >= a + n then k else Place(runs, a, n, k + 1)
  }

  /** rt_page_free of n pages from page a on. */
  function Give(runs: seq<PageRun>, a: nat, n: nat): seq<PageRun> {
    var i := Place(runs, a, n, 0);
    if i == |runs| then runs + [PageRun(a, n)]
    else
      var b := runs[i];
      if b.start + b.len == a then
        if i + 1 < |runs| && b.start + b.len + n == runs[i + 1].start
        then runs[..i] + [PageRun(b.start, b.len + n + runs[i + 1].len)] + runs[i + 2..]
        else runs[i := PageRun(b.start, b.len + n)]
      else if b.start == a + n then runs[i := PageRun(a, n + b.len)]
      else runs[..i] + [PageRun(a, n)] + runs[i..]
  }

  // ---------------------------------------------------------------- the set behind the list

  lemma TakeIsSubtraction(runs: seq<PageRun>, n: nat)
    requires Canonical(runs) && Take(runs, n).1.Some?
    ensures var (r, a) := Take(runs, n);
      && Canonical(r)
      && forall p: nat {:trigger Free(r, p)} :: (Free(r, p) <==> Free(runs, p) && !(a.value <= p < a.value + n))
    ensures var a := Take(runs, n).1.value; forall p: nat {:trigger Free(runs, p)} :: a <= p < a + n ==> Free(runs, p)
  {
    var (r, a) := Take(runs, n);
    var i := FindRun(runs, n, 0);
    TakeCanonical(runs, n);
    forall p: nat
      ensures Free(r, p) <==> Free(runs, p) && !(a.value <= p < a.value + n)
      ensures a.value <= p < a.value + n ==> Free(runs, p)
    {
      TakePage(runs, n, p);
    }
  }

  lemma TakeCanonical(runs: seq<PageRun>, n: nat)
    requires Canonical(runs) && Take(runs, n).1.Some?
    ensures Canonical(Take(runs, n).0)
  {
    var r, i := Take(runs, n).0, FindRun(runs, n, 0);
    forall x, y | 0 <= x < y < |r|
      ensures Gap(r, x, y)
    {
      if runs[i].len > n { assert Gap(runs, x, y); }
      else { assert Gap(runs, if x < i then x else x + 1, if y < i then y else y + 1); }
    }
  }

  lemma TakePage(runs: seq<PageRun>, n: nat, p: nat)
    requires Canonical(runs) && Take(runs, n).1.Some?
    ensures var (r, a) := Take(runs, n);
      && (Free(r, p) <==> Free(runs, p) && !(a.value <= p < a.value + n))
      && (a.value <= p < a.value + n ==> Free(runs, p))
  {
    var (r, a) := Take(runs, n);
    var i := FindRun(runs, n, 0);
    if Free(runs, p) {
      var j :| 0 <= j < |runs| && Holds(runs[j], p);
      if j != i {
        assert if j < i then Gap(runs, j, i) else Gap(runs, i, j);
        assert Holds(r[if runs[i].len > n || j < i then j else j - 1], p);
      } else if p >= a.value + n {
        assert Holds(r[i], p);
      }
    }
    if Free(r, p) {
      var j :| 0 <= j < |r| && Holds(r[j], p);
      var k := if runs[i].len > n || j < i then j else j + 1;
      assert Holds(runs[k], p);
      if k != i { assert if k < i then Gap(runs, k, i) else Gap(runs, i, k); }
    }
    if a.value <= p < a.value + n { assert Holds(runs[i], p); }
  }

  /** Nothing free among the pages being released. */
  ghost predicate AllTaken(runs: seq<PageRun>, a: nat, n: nat) {
    forall p: nat {:trigger Free(runs, p)} :: a <= p < a + n ==> !Free(runs, p)
  }

  /** No run reaches into pages that are all taken. */
  lemma RunsAvoid(runs: seq<PageRun>, a: nat, n: nat, i: nat)
    requires Canonical(runs) && AllTaken(runs, a, n) && n > 0 && i < |runs|
    ensures runs[i].start + runs[i].len <= a || a + n <= runs[i].start
  {
    var r := runs[i];
    if a <= r.start < a + n { assert Holds(runs[i], r.start); assert Free(runs, r.start); }
    else if r.start < a < r.start + r.len { assert Holds(runs[i], a); assert Free(runs, a); }
  }

  lemma GiveCanonical(runs: seq<PageRun>, a: nat, n: nat)
    requires Canonical(runs) && AllTaken(runs, a, n) && n > 0
    ensures Canonical(Give(runs, a, n))
  {
    var r, i := Give(runs, a, n), Place(runs, a, n, 0);
    forall j | 0 <= j < |runs|
      ensures runs[j].start + runs[j].len <= a || a + n <= runs[j].start
    {
      RunsAvoid(runs, a, n, j);
    }
    forall x, y | 0 <= x < y < |r|
      ensures Gap(r, x, y)
    {
      GiveGap(runs, a, n, x, y);
    }
  }

  lemma GapAt(runs: seq<PageRun>, i: nat, j: nat)
    requires Canonical(runs) && j < |runs|
    ensures i < j ==> runs[i].start + runs[i].len < runs[j].start
  {
    assert i < j ==> Gap(runs, i, j);
  }

  lemma GiveGap(runs: seq<PageRun>, a: nat, n: nat, x: nat, y: nat)
    requires Canonical(runs) && n > 0 && x < y < |Give(runs, a, n)|
    requires forall j {:trigger runs[j]} ::
        0 <= j < |runs| ==> runs[j].start + runs[j].len <= a || a + n <= runs[j].start
    ensures Gap(Give(runs, a, n), x, y)
  {
    hide Canonical;
    var r, i := Give(runs, a, n), Place(runs, a, n, 0);
    if i == |runs| {
      if y < |runs| { GapAt(runs, x, y); }
    } else if runs[i].start + runs[i].len == a {
      GiveGapBehind(runs, a, n, x, y);
    } else if runs[i].start == a + n {
      GapAt(runs, x, y);
    } else {
      var u, v := if x < i then x else x - 1, if y < i then y else y - 1;
      if x != i && y != i { GapAt(runs, u, v); }
      if x == i && v > i { GapAt(runs, i, v); }
    }
  }

  /** The pages join the run in front of them, and perhaps the run behind. */
  lemma GiveGapBehind(runs: seq<PageRun>, a: nat, n: nat, x: nat, y: nat)
    requires Canonical(runs) && n > 0 && x < y < |Give(runs, a, n)|
    requires forall j {:trigger runs[j]} ::
        0 <= j < |runs| ==> runs[j].start + runs[j].len <= a || a + n <= runs[j].start
    requires var i := Place(runs, a, n, 0); i < |runs| && runs[i].start + runs[i].len == a
    ensures Gap(Give(runs, a, n), x, y)
  {
    hide Canonical;
    var r, i := Give(runs, a, n), Place(runs, a, n, 0);
    if |r| == |runs| {
      GapAt(runs, x, y);
      if x == i && i + 1 < y { GapAt(runs, i + 1, y); }
      if x == i { GapAt(runs, i, i + 1); assert runs[i + 1].len > 0 by { LenAt(runs, i + 1); } }
    } else {
      GapAt(runs, if x <= i then x else x + 1, if y <= i then y else y + 1);
      if x == i { GapAt(runs, i + 1, y + 1); }
    }
  }

  lemma LenAt(runs: seq<PageRun>, i: nat)
    requires Canonical(runs) && i < |runs|
    ensures runs[i].len > 0
  {
  }

  lemma GiveIsUnion(runs: seq<PageRun>, a: nat, n: nat)
    requires Canonical(runs) && AllTaken(runs, a, n) && n > 0
    ensures Canonical(Give(runs, a, n))
    ensures forall p: nat {:trigger Free(Give(runs, a, n), p)} ::
        Free(Give(runs, a, n), p) <==> Free(runs, p) || a <= p < a + n
  {
    GiveCanonical(runs, a, n);
    forall p: nat
      ensures Free(Give(runs, a, n), p) <==> Free(runs, p) || a <= p < a + n
    {
      GivePage(runs, a, n, p);
    }
  }

  lemma GivePage(runs: seq<PageRun>, a: nat, n: nat, p: nat)
    requires Canonical(runs) && n > 0
    ensures Free(Give(runs, a, n), p) <==> Free(runs, p) || a <= p < a + n
  {
    var r, i := Give(runs, a, n), Place(runs, a, n, 0);
    var joins := i + 1 < |runs| && runs[i].start + runs[i].len == a && a + n == runs[i + 1].start;
    var opens := i == |runs| || (runs[i].start + runs[i].len != a && runs[i].start != a + n);
    if Free(runs, p) {
      var j :| 0 <= j < |runs| && Holds(runs[j], p);
      assert Holds(r[if joins && j > i then j - 1 else if opens && j >= i then j + 1 else j], p);
    }
    if a <= p < a + n { assert Holds(r[i], p); }
    if Free(r, p) {
      var j :| 0 <= j < |r| && Holds(r[j], p);
      if j != i { assert Holds(runs[if joins && j > i then j + 1 else if opens && j > i then j - 1 else j], p); }
      else if !(a <= p < a + n) {
        if joins && p >= a + n { assert Holds(runs[i + 1], p); } else { assert Holds(runs[i], p); }
      }
    }
  }

  // ---------------------------------------------------------------- uniqueness

  lemma CanonicalTail(runs: seq<PageRun>)
    requires Canonical(runs) && runs != []
    ensures Canonical(runs[1..])
    ensures forall p: nat {:trigger Free(runs[1..], p)} :: Free(runs[1..], p) <==> Free(runs, p) && !Holds(runs[0], p)
  {
    var t := runs[1..];
    forall x, y | 0 <= x < y < |t|
      ensures Gap(t, x, y)
    {
      assert Gap(runs, x + 1, y + 1);
    }
    forall p: nat
      ensures Free(t, p) <==> Free(runs, p) && !Holds(runs[0], p)
    {
      if Free(t, p) {
        var j :| 0 <= j < |t| && Holds(t[j], p);
        assert Holds(runs[j + 1], p) && Gap(runs, 0, j + 1);
      }
      if Free(runs, p) && !Holds(runs[0], p) {
        var j :| 0 <= j < |runs| && Holds(runs[j], p);
        assert Holds(t[j - 1], p);
      }
    }
  }

  lemma HeadLowest(runs: seq<PageRun>, p: nat)
    requires Canonical(runs) && runs != []
    ensures Free(runs, p) ==> runs[0].start <= p
    ensures Free(runs, runs[0].start) && Free(runs, runs[0].start + runs[0].len - 1)
        && !Free(runs, runs[0].start + runs[0].len)
    ensures Holds(runs[0], p) ==> Free(runs, p)
  {
    assert Holds(runs[0], runs[0].start) && Holds(runs[0], runs[0].start + runs[0].len - 1);
    if Free(runs, p) {
      var j :| 0 <= j < |runs| && Holds(runs[j], p);
      if j > 0 { assert Gap(runs, 0, j); }
    }
    if Free(runs, runs[0].start + runs[0].len) {
      var j :| 0 <= j < |runs| && Holds(runs[j], runs[0].start + runs[0].len);
      GapAt(runs, 0, j);
    }
  }

  ghost predicate SameFree(r: seq<PageRun>, q: seq<PageRun>) {
    forall p: nat {:trigger Free(r, p)} {:trigger Free(q, p)} :: Free(r, p) <==> Free(q, p)
  }

  lemma SameHead(r: seq<PageRun>, q: seq<PageRun>)
    requires Canonical(r) && Canonical(q) && SameFree(r, q) && r != [] && q != []
    ensures r[0] == q[0]
  {
    HeadLowest(r, q[0].start);
    HeadLowest(q, r[0].start);
    if r[0].len < q[0].len { HeadLowest(q, r[0].start + r[0].len); }
    if q[0].len < r[0].len { HeadLowest(r, q[0].start + q[0].len); }
  }

  /** A set of free pages has exactly one canonical list. */
  lemma {:induction false} OneCanonicalList(r: seq<PageRun>, q: seq<PageRun>)
    requires Canonical(r) && Canonical(q) && SameFree(r, q)
    ensures r == q
    decreases |r|
  {
    if r == [] {
      if q != [] { HeadLowest(q, q[0].start); NothingFree(q[0].start); }
    } else if q == [] {
      HeadLowest(r, r[0].start);
      NothingFree(r[0].start);
    } else {
      SameHead(r, q);
      CanonicalTail(r);
      CanonicalTail(q);
      OneCanonicalList(r[1..], q[1..]);
    }
  }

  lemma NothingFree(p: nat)
    ensures !Free([], p)
  {
  }

  // ---------------------------------------------------------------- main results

  /** n consecutive free pages exist exactly when some run is that long. */
  lemma ConsecutiveIff(runs: seq<PageRun>, n: nat)
    requires Canonical(runs) && n > 0
    ensures (exists a: nat :: AllFree(runs, a, n)) <==> FindRun(runs, n, 0) < |runs|
  {
    var i := FindRun(runs, n, 0);
    if i < |runs| {
      forall p: nat | runs[i].start <= p < runs[i].start + n
        ensures Free(runs, p)
      {
        assert Holds(runs[i], p);
      }
      assert AllFree(runs, runs[i].start, n);
    }
    if a: nat :| AllFree(runs, a, n) {
      OneRunCovers(runs, a, n);
    }
  }

  ghost predicate AllFree(runs: seq<PageRun>, a: nat, n: nat) {
    forall p: nat {:trigger Free(runs, p)} :: a <= p < a + n ==> Free(runs, p)
  }

  lemma {:induction false} OneRunCovers(runs: seq<PageRun>, a: nat, n: nat)
    requires Canonical(runs) && n > 0 && AllFree(runs, a, n)
    ensures exists i {:trigger runs[i]} :: 0 <= i < |runs| && runs[i].start <= a && a + n <= runs[i].start + runs[i].len
  {
    assert Free(runs, a);
    var i :| 0 <= i < |runs| && Holds(runs[i], a);
    var e := runs[i].start + runs[i].len;
    if e < a + n {
      assert Free(runs, e);
      var j :| 0 <= j < |runs| && Holds(runs[j], e);
      GapAt(runs, i, j);
      GapAt(runs, j, i);
    }
  }

  /** rt_page_alloc fails exactly when there are no n consecutive free pages, and
      otherwise takes the lowest-addressed run that is long enough. */
  lemma TakeIff(runs: seq<PageRun>, n: nat)
    requires Canonical(runs) && n > 0
    ensures Take(runs, n).1.Some? <==> exists a: nat :: AllFree(runs, a, n)
    ensures Take(runs, n).1.Some? ==> forall a: nat {:trigger AllFree(runs, a, n)} ::
        AllFree(runs, a, n) ==> Take(runs, n).1.value <= a
  {
    ConsecutiveIff(runs, n);
    if Take(runs, n).1.Some? {
      var i := FindRun(runs, n, 0);
      forall a: nat | AllFree(runs, a, n)
        ensures runs[i].start <= a
      {
        OneRunCovers(runs, a, n);
        var j :| 0 <= j < |runs| && runs[j].start <= a && a + n <= runs[j].start + runs[j].len;
        assert i < j ==> Gap(runs, i, j);
      }
    }
  }

  /** Giving back what was taken restores the very same list. */
  lemma GiveUndoesTake(runs: seq<PageRun>, n: nat)
    requires Canonical(runs) && Take(runs, n).1.Some?
    ensures var (r, a) := Take(runs, n); Give(r, a.value, n) == runs
  {
    var (r, a) := Take(runs, n);
    TakeIsSubtraction(runs, n);
    assert AllTaken(r, a.value, n);
    GiveIsUnion(r, a.value, n);
    assert SameFree(Give(r, a.value, n), runs);
    OneCanonicalList(Give(r, a.value, n), runs);
  }
}
