/** rt-thread/src/slab.c, page allocator: the list threaded through the free pages. The
    first words of a free page hold the next pointer and the number of pages. */
module SlabPages {
  import opened Common
  import opened SlabPageSpec

  const NULL: int := -1

  function StartAt(runs: seq<PageRun>, i: nat): int { if i < |runs| then runs[i].start else NULL }

  ghost predicate HeadAt(next: seq<int>, count: seq<nat>, runs: seq<PageRun>, i: nat)
    requires i < |runs| && |next| == |count|
  {
    var b := runs[i].start;
    b + runs[i].len <= |next| && b < |next| && next[b] == StartAt(runs, i + 1) && count[b] == runs[i].len
  }

  ghost predicate Linked(next: seq<int>, count: seq<nat>, runs: seq<PageRun>, head: int) {
    && |next| == |count| && head == StartAt(runs, 0)
    && forall i {:trigger HeadAt(next, count, runs, i)} :: 0 <= i < |runs| ==> HeadAt(next, count, runs, i)
  }

  lemma StartsDiffer(runs: seq<PageRun>, i: nat, j: nat)
    requires Canonical(runs) && i < |runs| && j < |runs| && i != j
    ensures runs[i].start != runs[j].start
  {
    GapAt(runs, i, j);
    GapAt(runs, j, i);
  }

  class PageList {
    const next: array<int>
    const count: array<nat>
    var head: int                     // rt_page_list
    ghost var runs: seq<PageRun>

    ghost predicate Valid()
      reads this, next, count
    {
      next.Length == count.Length && Canonical(runs) && Linked(next[..], count[..], runs, head)
    }

    /** rt_page_init. */
    constructor (npages: nat)
      requires npages != 0
      ensures Valid() && fresh(next) && fresh(count) && next.Length == npages && runs == [PageRun(0, npages)]
    {
      next, count := new int[npages], new nat[npages](_ => 0);
      head, runs := NULL, [];
      new;
      NothingTaken(0, npages);
      Release(0, npages);
    }

    lemma Reading(i: nat)
      requires Valid() && i < |runs|
      ensures var b := runs[i].start;
        b + runs[i].len <= next.Length && next[b] == StartAt(runs, i + 1) && count[b] == runs[i].len > 0
    {
      assert HeadAt(next[..], count[..], runs, i);
    }

    /** *prev = b. */
    method SetLink(prev: int, b: int)
      requires prev == NULL || 0 <= prev < next.Length
      modifies this`head, next
      ensures head == (if prev == NULL then b else old(head))
      ensures next[..] == if prev == NULL then old(next[..]) else old(next[..])[prev := b]
    {
      if prev == NULL { head := b; } else { next[prev] := b; }
    }

    lemma Beginning()
      requires Valid()
      ensures head == StartAt(runs, 0)
    {
    }

    /** rt_page_alloc. */
    method Alloc(npages: nat) returns (b: Option<nat>)
      requires Valid()
      modifies this, next, count
      ensures Valid() && (runs, b) == Take(old(runs), npages)
    {
      if npages == 0 { return None; }
      ghost var i := 0;
      var prev, p := NULL, head;
      while p != NULL
        invariant i <= |runs| && p == StartAt(runs, i) && prev == (if i == 0 then NULL else runs[i - 1].start)
        invariant Valid() && runs == old(runs)
        invariant FindRun(runs, npages, i) == FindRun(runs, npages, 0)
        decreases |runs| - i
      {
        Reading(i);
        if count[p] > npages {
          CutRun(prev, p, npages, i);
          return Some(p);
        }
        if count[p] == npages {
          DropRun(prev, p, i);
          return Some(p);
        }
        prev := p;
        p := next[p];
        i := i + 1;
      }
      b := None;
    }

    /** The pages behind the first npages become the list node. */
    method CutRun(prev: int, b: nat, npages: nat, ghost i: nat)
      requires Valid() && i < |runs| && b == runs[i].start && prev == (if i == 0 then NULL else runs[i - 1].start)
      requires 0 < npages < runs[i].len
      modifies this, next, count
      ensures Valid() && runs == old(runs)[i := PageRun(b + npages, old(runs)[i].len - npages)]
    {
      ghost var r0 := runs;
      Reading(i);
      if i > 0 { Reading(i - 1); }
      var n := b + npages;
      CutFacts(runs, i, npages);
      next[n] := next[b];
      count[n] := count[b] - npages;
      SetLink(prev, n);
      runs := runs[i := PageRun(n, runs[i].len - npages)];
      forall j | 0 <= j < |runs|
        ensures HeadAt(next[..], count[..], runs, j)
      {
        assert HeadAt(old(next[..]), old(count[..]), r0, j);
        if j != i { StartsDiffer(r0, i, j); StartsDiffer(runs, i, j); }
        if i > 0 && j != i - 1 { StartsDiffer(runs, i - 1, j); }
      }
    }

    /** The whole run leaves the list. */
    method DropRun(prev: int, b: nat, ghost i: nat)
      requires Valid() && i < |runs| && b == runs[i].start && prev == (if i == 0 then NULL else runs[i - 1].start)
      modifies this, next
      ensures Valid() && runs == old(runs)[..i] + old(runs)[i + 1..]
    {
      ghost var r0 := runs;
      Reading(i);
      if i > 0 { Reading(i - 1); }
      DropFacts(runs, i);
      SetLink(prev, next[b]);
      runs := r0[..i] + r0[i + 1..];
      forall j | 0 <= j < |runs|
        ensures HeadAt(next[..], count[..], runs, j)
      {
        assert HeadAt(old(next[..]), old(count[..]), r0, if j < i then j else j + 1);
        if i > 0 && j != i - 1 { StartsDiffer(runs, i - 1, j); }
      }
    }

    /** rt_page_free; the source asserts that the pages are not free already. */
    method Release(n: nat, npages: nat)
      requires Valid() && npages != 0 && n + npages <= next.Length && AllTaken(runs, n, npages)
      modifies this, next, count
      ensures Valid() && runs == Give(old(runs), n, npages)
    {
      hide Canonical, Linked, AllTaken, Give;
      GiveCanonical(runs, n, npages);
      Beginning();
      ghost var i := 0;
      var prev, b := NULL, head;
      while b != NULL
        invariant i <= |runs| && b == StartAt(runs, i) && prev == (if i == 0 then NULL else runs[i - 1].start)
        invariant Valid() && runs == old(runs) && Canonical(Give(runs, n, npages))
        invariant Place(runs, n, npages, i) == Place(runs, n, npages, 0)
        invariant i > 0 ==> runs[i - 1].start + runs[i - 1].len <= n
        decreases |runs| - i
      {
        Reading(i);
        RunsAvoid(runs, n, npages, i);
        if i + 1 < |runs| { RunsAvoid(runs, n, npages, i + 1); GapAt(runs, i, i + 1); }
        if b + count[b] == n {
          GiveAt(runs, n, npages, i);
          JoinFront(b, npages, i);
          return;
        }
        if b == n + npages {
          GiveAt(runs, n, npages, i);
          JoinBehind(prev, b, n, npages, i);
          return;
        }
        if b > n + npages { break; }
        prev := b;
        b := next[b];
        i := i + 1;
      }
      GiveAt(runs, n, npages, i);
      OpenRun(prev, b, n, npages, i);
    }

    /** The released pages follow run i, and may close the gap to the next one. */
    method JoinFront(b: nat, npages: nat, ghost i: nat)
      requires Valid() && i < |runs| && b == runs[i].start && npages > 0 && b + runs[i].len + npages <= next.Length
      requires i + 1 < |runs| ==> b + runs[i].len + npages <= runs[i + 1].start
      modifies this`runs, next, count
      ensures next.Length == count.Length && Linked(next[..], count[..], runs, head)
      ensures runs == if i + 1 < |old(runs)| && b + old(runs)[i].len + npages == old(runs)[i + 1].start
        then old(runs)[..i] + [PageRun(b, old(runs)[i].len + npages + old(runs)[i + 1].len)] + old(runs)[i + 2..]
        else old(runs)[i := PageRun(b, old(runs)[i].len + npages)]
    {
      ghost var r0 := runs;
      Reading(i);
      if i + 1 < |runs| { Reading(i + 1); }
      count[b] := count[b] + npages;
      if b + count[b] == next[b] {
        count[b] := count[b] + count[next[b]];
        next[b] := next[next[b]];
        runs := r0[..i] + [PageRun(b, r0[i].len + npages + r0[i + 1].len)] + r0[i + 2..];
      } else {
        runs := r0[i := PageRun(b, r0[i].len + npages)];
      }
      forall j | 0 <= j < |runs|
        ensures HeadAt(next[..], count[..], runs, j)
      {
        var k := if |runs| < |r0| && j > i then j + 1 else j;
        assert HeadAt(old(next[..]), old(count[..]), r0, k);
        if k != i { StartsDiffer(r0, i, k); }
      }
    }

    /** The released pages come right in front of run i. */
    method JoinBehind(prev: int, b: nat, n: nat, npages: nat, ghost i: nat)
      requires Valid() && i < |runs| && b == runs[i].start == n + npages && npages > 0
          && prev == (if i == 0 then NULL else runs[i - 1].start)
      requires i > 0 ==> runs[i - 1].start + runs[i - 1].len <= n
      modifies this, next, count
      ensures next.Length == count.Length && Linked(next[..], count[..], runs, head)
      ensures runs == old(runs)[i := PageRun(n, npages + old(runs)[i].len)]
    {
      ghost var r0 := runs;
      Reading(i);
      if i > 0 { Reading(i - 1); }
      StartsAside(r0, n, npages, i);
      count[n] := count[b] + npages;
      next[n] := next[b];
      SetLink(prev, n);
      runs := r0[i := PageRun(n, npages + r0[i].len)];
      forall j | 0 <= j < |runs|
        ensures HeadAt(next[..], count[..], runs, j)
      {
        assert HeadAt(old(next[..]), old(count[..]), r0, j);
        if i > 0 && j != i - 1 { StartsDiffer(r0, i - 1, j); }
      }
    }

    /** A run of its own in front of run i. */
    method OpenRun(prev: int, b: int, n: nat, npages: nat, ghost i: nat)
      requires Valid() && i <= |runs| && b == StartAt(runs, i) && npages > 0 && n + npages <= next.Length
      requires prev == (if i == 0 then NULL else runs[i - 1].start)
      requires (i > 0 ==> runs[i - 1].start + runs[i - 1].len <= n) && (i < |runs| ==> n + npages <= runs[i].start)
      modifies this, next, count
      ensures next.Length == count.Length && Linked(next[..], count[..], runs, head)
      ensures runs == old(runs)[..i] + [PageRun(n, npages)] + old(runs)[i..]
    {
      hide Canonical;
      ghost var r0 := runs;
      if i > 0 { Reading(i - 1); }
      StartsAside(r0, n, npages, i);
      count[n] := npages;
      next[n] := b;
      SetLink(prev, n);
      runs := r0[..i] + [PageRun(n, npages)] + r0[i..];
      forall j | 0 <= j < |runs|
        ensures HeadAt(next[..], count[..], runs, j)
      {
        if j != i {
          var k := if j < i then j else j - 1;
          assert HeadAt(old(next[..]), old(count[..]), r0, k);
          if i > 0 && k != i - 1 { StartsDiffer(r0, i - 1, k); }
        }
      }
    }
  }

  /** The four ways rt_page_free ends, at the run it stops at. */
  lemma GiveAt(runs: seq<PageRun>, n: nat, npages: nat, i: nat)
    requires i <= |runs| && Place(runs, n, npages, i) == i == Place(runs, n, npages, 0)
    ensures i < |runs| && runs[i].start + runs[i].len == n ==> (Give(runs, n, npages) ==
      if i + 1 < |runs| && runs[i].start + runs[i].len + npages == runs[i + 1].start
      then runs[..i] + [PageRun(runs[i].start, runs[i].len + npages + runs[i + 1].len)] + runs[i + 2..]
      else runs[i := PageRun(runs[i].start, runs[i].len + npages)])
    ensures i < |runs| && runs[i].start + runs[i].len != n && runs[i].start == n + npages ==>
      Give(runs, n, npages) == runs[i := PageRun(n, npages + runs[i].len)]
    ensures (i < |runs| ==> runs[i].start + runs[i].len != n && runs[i].start != n + npages) ==>
      Give(runs, n, npages) == runs[..i] + [PageRun(n, npages)] + runs[i..]
  {
  }

  lemma NothingTaken(a: nat, n: nat)
    ensures AllTaken([], a, n)
  {
  }

  lemma CutFacts(runs: seq<PageRun>, i: nat, n: nat)
    requires Canonical(runs) && i < |runs| && 0 < n < runs[i].len
    ensures Canonical(runs[i := PageRun(runs[i].start + n, runs[i].len - n)])
    ensures forall j {:trigger runs[j]} :: 0 <= j < |runs| ==> runs[j].start != runs[i].start + n
  {
    var r := runs[i := PageRun(runs[i].start + n, runs[i].len - n)];
    forall x, y | 0 <= x < y < |r|
      ensures Gap(r, x, y)
    {
      assert Gap(runs, x, y);
    }
    forall j | 0 <= j < |runs|
      ensures runs[j].start != runs[i].start + n
    {
      GapAt(runs, i, j);
      GapAt(runs, j, i);
    }
  }

  lemma DropFacts(runs: seq<PageRun>, i: nat)
    requires Canonical(runs) && i < |runs|
    ensures Canonical(runs[..i] + runs[i + 1..])
  {
    var r := runs[..i] + runs[i + 1..];
    forall x, y | 0 <= x < y < |r|
      ensures Gap(r, x, y)
    {
      assert Gap(runs, if x < i then x else x + 1, if y < i then y else y + 1);
    }
  }

  /** Page n, between run i - 1 and run i, heads no run. */
  lemma StartsAside(runs: seq<PageRun>, n: nat, npages: nat, i: nat)
    requires Canonical(runs) && i <= |runs| && npages > 0
    requires (i > 0 ==> runs[i - 1].start + runs[i - 1].len <= n) && (i < |runs| ==> n + npages <= runs[i].start)
    ensures forall j {:trigger runs[j]} :: 0 <= j < |runs| ==> runs[j].start != n
  {
    forall j | 0 <= j < |runs|
      ensures runs[j].start != n
    {
      LenAt(runs, j);
      if j < i - 1 { GapAt(runs, j, i - 1); }
      if i < j { GapAt(runs, i, j); LenAt(runs, i); }
    }
  }
}
