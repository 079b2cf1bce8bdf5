/** Lists of threads or nodes, as sequences of numbers. */
module Lists {
  predicate InRange(list: seq<nat>, n: nat) {
    forall i {:trigger list[i]} :: 0 <= i < |list| ==> list[i] < n
  }

  lemma AllInRange(sub: seq<nat>, list: seq<nat>, n: nat)
    requires InRange(list, n) && forall x {:trigger x in sub} :: x in sub ==> x in list
    ensures InRange(sub, n)
  {
    forall i | 0 <= i < |sub|
      ensures sub[i] < n
    {
      assert sub[i] in sub;
    }
  }

  predicate NoDup(list: seq<nat>) {
    forall i, j {:trigger list[i], list[j]} :: 0 <= i < j < |list| ==> list[i] != list[j]
  }

  function Insert(list: seq<nat>, t: nat, k: nat): (r: seq<nat>)
    requires k <= |list|
    ensures |r| == |list| + 1
    ensures forall j {:trigger r[j]} ::
        0 <= j < |r| ==> r[j] == if j < k then list[j] else if j == k then t else list[j - 1]
  {
    list[..k] + [t] + list[k..]
  }

  lemma InsertMembers(list: seq<nat>, t: nat, k: nat)
    requires k <= |list|
    ensures var r := Insert(list, t, k);
      && (forall x {:trigger x in r} :: x in r <==> x == t || x in list)
      && (NoDup(list) && t !in list ==> NoDup(r))
  {
    var r := Insert(list, t, k);
    forall x | x in list
      ensures x in r
    {
      var j :| 0 <= j < |list| && list[j] == x;
      assert r[if j < k then j else j + 1] == x;
    }
    assert r[k] == t;
  }

  lemma HeadGone(list: seq<nat>)
    requires list != [] && NoDup(list)
    ensures NoDup(list[1..]) && list[0] !in list[1..]
    ensures forall x {:trigger x in list[1..]} :: x in list[1..] <==> x in list && x != list[0]
  {
    assert list == [list[0]] + list[1..];
    assert forall i :: 0 <= i < |list[1..]| ==> list[1..][i] == list[i + 1];
  }

  /** list without thread t: rt_list_remove on its node. */
  function Without(list: seq<nat>, t: nat): seq<nat> {
    if list == [] then [] else if list[0] == t then Without(list[1..], t) else [list[0]] + Without(list[1..], t)
  }

  lemma {:induction false} WithoutMembers(list: seq<nat>, t: nat)
    ensures var r := Without(list, t);
      && |r| <= |list|
      && (forall x {:trigger x in r} :: x in r <==> x in list && x != t)
      && (NoDup(list) ==> NoDup(r))
  {
    if list != [] {
      WithoutMembers(list[1..], t);
      assert list == [list[0]] + list[1..];
      if NoDup(list) {
        HeadGone(list);
        var rest := Without(list[1..], t);
        if list[0] != t { InsertMembers(rest, list[0], 0); assert Insert(rest, list[0], 0) == [list[0]] + rest; }
      }
    }
  }

  lemma {:induction false} NoneWithout(list: seq<nat>, t: nat)
    requires t !in list
    ensures Without(list, t) == list
  {
    if list != [] {
      NoneWithout(list[1..], t);
      assert list == [list[0]] + list[1..];
    }
  }

  /** Removing the one entry k is removing what it names. */
  lemma {:induction false} WithoutAt(list: seq<nat>, k: nat)
    requires NoDup(list) && k < |list|
    ensures Without(list, list[k]) == list[..k] + list[k + 1..]
  {
    HeadGone(list);
    if k == 0 {
      NoneWithout(list[1..], list[0]);
    } else {
      WithoutAt(list[1..], k - 1);
      assert list[k] == list[1..][k - 1] && list[0] != list[k];
      assert list[..k] + list[k + 1..] == [list[0]] + (list[1..][..k - 1] + list[1..][k..]);
    }
  }

  /** t has left the list, and the others stay in order. */
  ghost predicate Leaves(list: seq<nat>, r: seq<nat>, t: nat) {
    exists k {:trigger list[k]} :: 0 <= k < |list| && list[k] == t && r == list[..k] + list[k + 1..]
  }

  lemma WithoutLeaves(list: seq<nat>, t: nat)
    requires NoDup(list) && t in list
    ensures Leaves(list, Without(list, t), t)
  {
    var k :| 0 <= k < |list| && list[k] == t;
    WithoutAt(list, k);
  }
}
