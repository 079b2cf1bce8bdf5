/** rt-thread/src/scheduler.c and thread.c: ready lists, ready bitmaps, the running
    thread. One processor; one bitmap level for up to 32 priorities, two levels for up
    to 256. A smaller number is a more urgent priority. */
module SchedulerSpec {
  import opened Common
  import opened Lists
  import opened Bitmap

  const GROUPS: nat := 32

  datatype Stat = Init | Ready | Suspend | Running

  /** number_mask is 1 << groupBit, high_mask is 1 << highBit. */
  datatype Thread = Thread(initPrio: nat, prio: nat, number: nat, groupBit: nat, highBit: nat, stat: Stat)

  datatype State = State(lists: seq<seq<nat>>, group: nat, table: seq<nat>, ts: seq<Thread>, cur: Option<nat>,
      lock: nat)

  predicate TwoLevels(lists: seq<seq<nat>>) { |lists| > 32 }

  /** The priority attributes the code computes from a priority. */
  function WithPrio(th: Thread, p: nat, two: bool): Thread {
    if two then th.(prio := p, number := p / 8, groupBit := p / 8, highBit := p % 8) else th.(prio := p, groupBit := p)
  }

  predicate Attributes(th: Thread, two: bool) {
    if two then th.number == th.prio / 8 && th.groupBit == th.number && th.highBit == th.prio % 8
        else th.groupBit == th.prio
  }

  predicate Placed(s: State, t: nat) {
    t < |s.ts| && s.ts[t].prio < |s.lists| && |s.table| == GROUPS && (TwoLevels(s.lists) ==> s.ts[t].number < GROUPS)
  }

  function WithStat(s: State, t: nat, stat: Stat): State
    requires t < |s.ts|
  {
    s.(ts := s.ts[t := s.ts[t].(stat := stat)])
  }

  /** rt_schedule_insert_thread. */
  function Insert1(s: State, t: nat): State
    requires Placed(s, t)
  {
    if s.cur == Some(t) then WithStat(s, t, Running)
    else
      var th := s.ts[t];
      WithStat(s, t, Ready).(
        lists := s.lists[th.prio := s.lists[th.prio] + [t]],
        table := if TwoLevels(s.lists) then s.table[th.number := SetBit(s.table[th.number], th.highBit)] else s.table,
        group := SetBit(s.group, th.groupBit))
  }

  /** rt_schedule_remove_thread. */
  function Remove(s: State, t: nat): State
    requires Placed(s, t)
  {
    var th := s.ts[t];
    var rest := Without(s.lists[th.prio], t);
    var s1 := s.(lists := s.lists[th.prio := rest]);
    if rest != [] then s1
    else if TwoLevels(s.lists) then
      var byte := ClearBit(s.table[th.number], th.highBit);
      s1.(table := s.table[th.number := byte], group := if byte == 0 then ClearBit(s.group, th.groupBit) else s.group)
    else s1.(group := ClearBit(s.group, th.groupBit))
  }

  predicate Countable(s: State) {
    && s.group < WORD_RANGE && |s.table| == GROUPS
    && forall n {:trigger s.table[n]} :: 0 <= n < GROUPS ==> s.table[n] < 0x100
  }

  /** The priority _get_highest_priority_thread looks up; -1 would mean no bit. */
  function Highest(s: State): int
    requires Countable(s)
  {
    var number := Ffs(s.group) - 1;
    if !TwoLevels(s.lists) then number
    else if 0 <= number < GROUPS then 8 * number + Ffs(s.table[number]) - 1
    else -1
  }

  /** The bitmaps name a list with a thread on it. */
  predicate Findable(s: State) {
    Countable(s) && (s.group != 0 ==>
        0 <= Highest(s) < |s.lists| && s.lists[Highest(s)] != [] && Placed(s, s.lists[Highest(s)][0]))
  }

  function SwitchTo(s: State, c: nat, to: nat): State
    requires Placed(s, c) && Placed(s, to)
  {
    var s1 := s.(cur := Some(to));
    var s2 := if s.ts[c].stat.Running? && c != to then Insert1(s1, c) else s1;
    WithStat(Remove(s2, to), to, Running)
  }

  /** rt_schedule. */
  function Schedule(s: State): State
    requires Findable(s) && (s.cur.Some? ==> Placed(s, s.cur.value))
  {
    if s.lock != 0 || s.group == 0 || s.cur.None? then s
    else
      var c, p := s.cur.value, Highest(s);
      if s.ts[c].stat.Running? && s.ts[c].prio < p then WithStat(Remove(s, c), c, Running)
      else SwitchTo(s, c, s.lists[p][0])
  }

  // ---------------------------------------------------------------- the bitmap invariant

  /** The bit for priority p says whether its list has a thread. */
  ghost predicate BitAgrees(lists: seq<seq<nat>>, group: nat, table: seq<nat>, p: nat)
    requires p < |lists| && |table| == GROUPS
  {
    if TwoLevels(lists) then p / 8 < GROUPS && (Bit(table[p / 8], p % 8) <==> lists[p] != [])
    else Bit(group, p) <==> lists[p] != []
  }

  ghost predicate GroupAgrees(group: nat, table: seq<nat>, n: nat)
    requires n < |table|
  {
    Bit(group, n) <==> table[n] != 0
  }

  /** No bit stands for a priority that does not exist. */
  ghost predicate NoStray(lists: seq<seq<nat>>, group: nat, table: seq<nat>)
    requires |table| == GROUPS
  {
    if TwoLevels(lists) then forall n: nat, b: nat {:trigger Bit(table[n], b)} ::
        n < GROUPS && Bit(table[n], b) ==> b < 8 && 8 * n + b < |lists|
    else forall k: nat {:trigger Bit(group, k)} :: Bit(group, k) ==> k < |lists|
  }

  ghost predicate Agree(lists: seq<seq<nat>>, group: nat, table: seq<nat>) {
    && 0 < |lists| <= 256 && |table| == GROUPS && group < WORD_RANGE
    && (forall n {:trigger table[n]} :: 0 <= n < GROUPS ==> table[n] < 0x100)
    && (forall p {:trigger BitAgrees(lists, group, table, p)} :: 0 <= p < |lists| ==> BitAgrees(lists, group, table, p))
    && (TwoLevels(lists) ==> forall n {:trigger GroupAgrees(group, table, n)} ::
        0 <= n < GROUPS ==> GroupAgrees(group, table, n))
    && NoStray(lists, group, table)
  }

  lemma WordPower()
    ensures Power(8) == 0x100 && Power(32) == WORD_RANGE
  {
    assert Power(4) == 16 by { assert Power(3) == 8; }
    assert Power(8) == 0x100 by { assert Power(6) == 64; }
    assert Power(12) == 0x1000 by { assert Power(10) == 1024; }
    assert Power(16) == 0x1_0000 by { assert Power(14) == 0x4000; }
    assert Power(20) == 0x10_0000 by { assert Power(18) == 0x4_0000; }
    assert Power(24) == 0x100_0000 by { assert Power(22) == 0x40_0000; }
    assert Power(28) == 0x1000_0000 by { assert Power(26) == 0x400_0000; }
    assert Power(32) == WORD_RANGE by { assert Power(30) == 0x4000_0000; }
  }

  /** The bitmap lookup: with a bit set anywhere, it is the least priority whose list is
      not empty; with none, every list is empty. */
  lemma HighestIsLeast(s: State)
    requires Agree(s.lists, s.group, s.table)
    ensures Countable(s)
    ensures s.group == 0 <==> forall p {:trigger s.lists[p]} :: 0 <= p < |s.lists| ==> s.lists[p] == []
    ensures s.group != 0 ==> 0 <= Highest(s) < |s.lists| && s.lists[Highest(s)] != []
                             && forall p {:trigger s.lists[p]} :: 0 <= p < Highest(s) ==> s.lists[p] == []
  {
    WordPower();
    if TwoLevels(s.lists) { HighestTwo(s); } else { HighestOne(s); }
  }

  lemma HighestOne(s: State)
    requires Agree(s.lists, s.group, s.table) && !TwoLevels(s.lists)
    ensures s.group == 0 <==> forall p {:trigger s.lists[p]} :: 0 <= p < |s.lists| ==> s.lists[p] == []
    ensures s.group != 0 ==> Countable(s) && 0 <= Highest(s) < |s.lists| && s.lists[Highest(s)] != []
                             && forall p {:trigger s.lists[p]} :: 0 <= p < Highest(s) ==> s.lists[p] == []
  {
    hide Bit, SetBit, ClearBit, Ffs, Lowest;
    if s.group == 0 {
      forall p | 0 <= p < |s.lists|
        ensures s.lists[p] == []
      {
        NoBits(p);
        assert BitAgrees(s.lists, s.group, s.table, p);
      }
    } else {
      FfsIsLowest(s.group);
      LowestIs(s.group);
      assert BitAgrees(s.lists, s.group, s.table, Lowest(s.group));
      forall p | 0 <= p < Lowest(s.group)
        ensures s.lists[p] == []
      {
        assert BitAgrees(s.lists, s.group, s.table, p);
      }
    }
  }

  lemma HighestTwo(s: State)
    requires Agree(s.lists, s.group, s.table) && TwoLevels(s.lists)
    ensures s.group == 0 <==> forall p {:trigger s.lists[p]} :: 0 <= p < |s.lists| ==> s.lists[p] == []
    ensures s.group != 0 ==> Countable(s) && 0 <= Highest(s) < |s.lists| && s.lists[Highest(s)] != []
                             && forall p {:trigger s.lists[p]} :: 0 <= p < Highest(s) ==> s.lists[p] == []
  {
    hide Bit, SetBit, ClearBit, Ffs, Lowest;
    WordPower();
    if s.group == 0 {
      forall p | 0 <= p < |s.lists|
        ensures s.lists[p] == []
      {
        ByteEmpty(s, p);
      }
    } else {
      FfsIsLowest(s.group);
      LowestIs(s.group);
      LowestBound(s.group, 32);
      var n := Lowest(s.group);
      assert GroupAgrees(s.group, s.table, n);
      FfsIsLowest(s.table[n]);
      LowestIs(s.table[n]);
      LowestBound(s.table[n], 8);
      var b := Lowest(s.table[n]);
      assert Bit(s.table[n], b);
      assert (8 * n + b) / 8 == n && (8 * n + b) % 8 == b;
      assert BitAgrees(s.lists, s.group, s.table, 8 * n + b);
      forall p | 0 <= p < 8 * n + b
        ensures s.lists[p] == []
      {
        assert BitAgrees(s.lists, s.group, s.table, p);
        if p / 8 < n {
          assert !Bit(s.group, p / 8);
          ByteEmpty(s, p);
        } else {
          assert p % 8 < b && !Bit(s.table[n], p % 8);
        }
      }
    }
  }

  lemma ByteEmpty(s: State, p: nat)
    requires !Bit(s.group, p / 8) || s.group == 0
    requires Agree(s.lists, s.group, s.table) && TwoLevels(s.lists) && p < |s.lists|
    ensures s.lists[p] == []
  {
    hide Bit, SetBit, ClearBit, Ffs, Lowest;
    NoBits(p / 8);
    assert BitAgrees(s.lists, s.group, s.table, p);
    assert GroupAgrees(s.group, s.table, p / 8);
    NoBits(p % 8);
  }

  // ---------------------------------------------------------------- bitmap updates

  lemma MarkAgrees(lists: seq<seq<nat>>, group: nat, table: seq<nat>, p: nat, t: nat)
    requires Agree(lists, group, table) && p < |lists|
    ensures var l1 := lists[p := lists[p] + [t]];
      if TwoLevels(lists)
          then p / 8 < GROUPS && Agree(l1, SetBit(group, p / 8), table[p / 8 := SetBit(table[p / 8], p % 8)])
      else Agree(l1, SetBit(group, p), table)
  {
    hide Bit, SetBit, ClearBit, Ffs, Lowest;
    WordPower();
    assert BitAgrees(lists, group, table, p);
    if TwoLevels(lists) { MarkTwo(lists, group, table, p, t); } else { MarkOne(lists, group, table, p, t); }
  }

  lemma MarkOne(lists: seq<seq<nat>>, group: nat, table: seq<nat>, p: nat, t: nat)
    requires Agree(lists, group, table) && p < |lists| && !TwoLevels(lists)
    ensures Agree(lists[p := lists[p] + [t]], SetBit(group, p), table)
  {
    hide Bit, SetBit, ClearBit, Ffs, Lowest;
    WordPower();
    var l1, g1 := lists[p := lists[p] + [t]], SetBit(group, p);
    UpdateFits(group, p, 32);
    forall q | 0 <= q < |l1|
      ensures BitAgrees(l1, g1, table, q)
    {
      SetBitAt(group, p, q);
      assert BitAgrees(lists, group, table, q);
    }
    forall k: nat | Bit(g1, k)
      ensures k < |l1|
    {
      SetBitAt(group, p, k);
    }
  }

  lemma MarkTwo(lists: seq<seq<nat>>, group: nat, table: seq<nat>, p: nat, t: nat)
    requires Agree(lists, group, table) && p < |lists| && TwoLevels(lists) && p / 8 < GROUPS
    ensures Agree(lists[p := lists[p] + [t]], SetBit(group, p / 8), table[p / 8 := SetBit(table[p / 8], p % 8)])
  {
    hide Bit, SetBit, ClearBit, Ffs, Lowest;
    WordPower();
    var n, b := p / 8, p % 8;
    var l1, g1, t1 := lists[p := lists[p] + [t]], SetBit(group, n), table[n := SetBit(table[n], b)];
    UpdateFits(group, n, 32);
    UpdateFits(table[n], b, 8);
    forall q | 0 <= q < |l1|
      ensures BitAgrees(l1, g1, t1, q)
    {
      SetBitAt(table[n], b, q % 8);
      assert BitAgrees(lists, group, table, q);
      SamePriority(p, q);
    }
    SetBitAt(table[n], b, b);
    NoBits(b);
    forall m | 0 <= m < GROUPS
      ensures GroupAgrees(g1, t1, m)
    {
      SetBitAt(group, n, m);
      assert GroupAgrees(group, table, m);
    }
    forall m: nat, c: nat | m < GROUPS && Bit(t1[m], c)
      ensures c < 8 && 8 * m + c < |l1|
    {
      SetBitAt(table[n], b, c);
      if m != n || Bit(table[n], c) { assert Bit(table[m], c); }
    }
  }

  lemma SamePriority(p: nat, q: nat)
    ensures p / 8 == q / 8 && p % 8 == q % 8 <==> p == q
  {
  }

  lemma UnmarkAgrees(lists: seq<seq<nat>>, group: nat, table: seq<nat>, p: nat)
    requires Agree(lists, group, table) && p < |lists|
    ensures var l1 := lists[p := []];
      if TwoLevels(lists) then
        p / 8 < GROUPS && var byte := ClearBit(table[p / 8], p % 8);
        Agree(l1, if byte == 0 then ClearBit(group, p / 8) else group, table[p / 8 := byte])
      else Agree(l1, ClearBit(group, p), table)
  {
    hide Bit, SetBit, ClearBit, Ffs, Lowest;
    assert BitAgrees(lists, group, table, p);
    if TwoLevels(lists) { UnmarkTwo(lists, group, table, p); } else { UnmarkOne(lists, group, table, p); }
  }

  lemma UnmarkOne(lists: seq<seq<nat>>, group: nat, table: seq<nat>, p: nat)
    requires Agree(lists, group, table) && p < |lists| && !TwoLevels(lists)
    ensures Agree(lists[p := []], ClearBit(group, p), table)
  {
    hide Bit, SetBit, ClearBit, Ffs, Lowest;
    WordPower();
    var l1, g1 := lists[p := []], ClearBit(group, p);
    UpdateFits(group, p, 32);
    forall q | 0 <= q < |l1|
      ensures BitAgrees(l1, g1, table, q)
    {
      ClearBitAt(group, p, q);
      assert BitAgrees(lists, group, table, q);
    }
    forall k: nat | Bit(g1, k)
      ensures k < |l1|
    {
      ClearBitAt(group, p, k);
    }
  }

  lemma UnmarkTwo(lists: seq<seq<nat>>, group: nat, table: seq<nat>, p: nat)
    requires Agree(lists, group, table) && p < |lists| && TwoLevels(lists) && p / 8 < GROUPS
    ensures var byte := ClearBit(table[p / 8], p % 8);
            Agree(lists[p := []], if byte == 0 then ClearBit(group, p / 8) else group, table[p / 8 := byte])
  {
    hide Bit, SetBit, ClearBit, Ffs, Lowest;
    WordPower();
    var n, b := p / 8, p % 8;
    var byte := ClearBit(table[n], b);
    var l1, g1, t1 := lists[p := []], if byte == 0 then ClearBit(group, n) else group, table[n := byte];
    UpdateFits(group, n, 32);
    UpdateFits(table[n], b, 8);
    forall q | 0 <= q < |l1|
      ensures BitAgrees(l1, g1, t1, q)
    {
      ClearBitAt(table[n], b, q % 8);
      assert BitAgrees(lists, group, table, q);
      SamePriority(p, q);
    }
    assert GroupAgrees(group, table, n);
    if table[n] == 0 { NoBits(b); ClearNothing(b); }
    forall m | 0 <= m < GROUPS
      ensures GroupAgrees(g1, t1, m)
    {
      ClearBitAt(group, n, m);
      assert GroupAgrees(group, table, m);
    }
    forall m: nat, c: nat | m < GROUPS && Bit(t1[m], c)
      ensures c < 8 && 8 * m + c < |l1|
    {
      ClearBitAt(table[n], b, c);
      assert Bit(table[m], c);
    }
  }

  lemma {:induction false} ClearNothing(k: nat)
    ensures ClearBit(0, k) == 0
  {
    if k > 0 { ClearNothing(k - 1); }
  }

  /** Lists that stay non-empty need no update. */
  lemma SameAgrees(lists: seq<seq<nat>>, group: nat, table: seq<nat>, p: nat, rest: seq<nat>)
    requires Agree(lists, group, table) && p < |lists| && (rest == [] <==> lists[p] == [])
    ensures Agree(lists[p := rest], group, table)
  {
    hide Bit, SetBit, ClearBit, Ffs, Lowest;
    var l1 := lists[p := rest];
    forall q | 0 <= q < |l1|
      ensures BitAgrees(l1, group, table, q)
    {
      assert BitAgrees(lists, group, table, q);
    }
  }

  // ---------------------------------------------------------------- lists and states

  /** List p holds exactly the ready threads of priority p, once each. */
  ghost predicate ListRight(list: seq<nat>, ts: seq<Thread>, p: nat) {
    && NoDup(list) && InRange(list, |ts|)
    && forall t {:trigger t in list} :: 0 <= t < |ts| ==> (t in list <==> ts[t].stat.Ready? && ts[t].prio == p)
  }

  ghost predicate ThreadRight(th: Thread, max: nat, two: bool) {
    th.initPrio < max && (!th.stat.Init? ==> th.prio < max && Attributes(th, two))
  }

  ghost predicate Core(s: State) {
    && Agree(s.lists, s.group, s.table)
    && (forall p {:trigger ListRight(s.lists[p], s.ts, p)} :: 0 <= p < |s.lists| ==> ListRight(s.lists[p], s.ts, p))
    && (forall t {:trigger s.ts[t]} :: 0 <= t < |s.ts| ==> ThreadRight(s.ts[t], |s.lists|, TwoLevels(s.lists)))
  }

  /** At most the current thread is RUNNING; it is never on a ready list. */
  ghost predicate CurRight(s: State) {
    && (forall t {:trigger s.ts[t]} :: 0 <= t < |s.ts| && s.ts[t].stat.Running? ==> s.cur == Some(t))
    && (s.cur.Some? ==> s.cur.value < |s.ts| && (s.ts[s.cur.value].stat.Running? || s.ts[s.cur.value].stat.Suspend?))
  }

  ghost predicate Inv(s: State) { Core(s) && CurRight(s) }

  lemma CorePlaced(s: State, t: nat)
    requires Core(s) && t < |s.ts| && !s.ts[t].stat.Init?
    ensures Placed(s, t) && s.ts[t].groupBit < 32 && Attributes(s.ts[t], TwoLevels(s.lists))
  {
  }

  lemma InsertCore(s: State, t: nat)
    requires Core(s) && t < |s.ts| && !s.ts[t].stat.Init? && !s.ts[t].stat.Ready? && s.cur != Some(t)
    ensures Placed(s, t) && Core(Insert1(s, t))
  {
    hide Agree, Bit, SetBit;
    CorePlaced(s, t);
    var s1, p := Insert1(s, t), s.ts[t].prio;
    assert ListRight(s.lists[p], s.ts, p);
    MarkAgrees(s.lists, s.group, s.table, p, t);
    forall q | 0 <= q < |s.lists|
      ensures ListRight(s1.lists[q], s1.ts, q)
    {
      assert ListRight(s.lists[q], s.ts, q);
      if q == p {
        InsertMembers(s.lists[p], t, |s.lists[p]|);
        assert Insert(s.lists[p], t, |s.lists[p]|) == s.lists[p] + [t];
      }
    }
  }

  /** Off its list, with a state that is not READY. */
  lemma RemoveCore(s: State, t: nat, stat: Stat)
    requires Core(s) && t < |s.ts| && !s.ts[t].stat.Init? && !stat.Ready?
    ensures Placed(s, t) && Core(WithStat(Remove(s, t), t, stat))
  {
    hide Agree, Bit, ClearBit, Without;
    CorePlaced(s, t);
    var p := s.ts[t].prio;
    var s1, rest := WithStat(Remove(s, t), t, stat), Without(s.lists[p], t);
    assert ListRight(s.lists[p], s.ts, p);
    WithoutMembers(s.lists[p], t);
    if rest == [] {
      UnmarkAgrees(s.lists, s.group, s.table, p);
    } else {
      RestNonEmpty(s.lists[p], rest, t);
      SameAgrees(s.lists, s.group, s.table, p, rest);
    }
    forall q | 0 <= q < |s.lists|
      ensures ListRight(s1.lists[q], s1.ts, q)
    {
      assert ListRight(s.lists[q], s.ts, q);
      if q == p { AllInRange(rest, s.lists[p], |s.ts|); }
    }
  }

  lemma RestNonEmpty(list: seq<nat>, rest: seq<nat>, t: nat)
    requires rest != [] && forall x {:trigger x in rest} :: x in rest <==> x in list && x != t
    ensures list != []
  {
    assert rest[0] in rest;
  }

  /** What the lookup finds is a ready thread, and no ready thread is more urgent. */
  lemma HighestReady(s: State)
    requires Core(s)
    ensures Findable(s)
    ensures s.group != 0 ==> var to := s.lists[Highest(s)][0];
      to < |s.ts| && s.ts[to].stat.Ready? && s.ts[to].prio == Highest(s)
    ensures forall t {:trigger s.ts[t]} ::
        0 <= t < |s.ts| && s.ts[t].stat.Ready? ==> s.group != 0 && Highest(s) <= s.ts[t].prio
  {
    hide Agree, Bit, Ffs;
    HighestIsLeast(s);
    if s.group != 0 {
      var p := Highest(s);
      assert ListRight(s.lists[p], s.ts, p) && s.lists[p][0] in s.lists[p];
      CorePlaced(s, s.lists[p][0]);
    }
    forall t | 0 <= t < |s.ts| && s.ts[t].stat.Ready?
      ensures s.group != 0 && Highest(s) <= s.ts[t].prio
    {
      assert ListRight(s.lists[s.ts[t].prio], s.ts, s.ts[t].prio);
      assert t in s.lists[s.ts[t].prio];
    }
  }

  lemma SwitchKeeps(s: State, c: nat, to: nat)
    requires Inv(s) && s.cur == Some(c) && to < |s.ts| && s.ts[to].stat.Ready?
    ensures Placed(s, c) && Placed(s, to) && Inv(SwitchTo(s, c, to))
  {
    hide Agree, Remove, ListRight;
    CorePlaced(s, c);
    CorePlaced(s, to);
    var s1 := s.(cur := Some(to));
    assert Core(s1) by { SameCore(s, s1); }
    var s2 := s1;
    if s.ts[c].stat.Running? {
      InsertCore(s1, c);
      s2 := Insert1(s1, c);
    }
    RemoveCore(s2, to, Running);
    RemoveThreads(s2, to);
  }

  lemma SameCore(s: State, s1: State)
    requires Core(s) && s1.lists == s.lists && s1.group == s.group && s1.table == s.table && s1.ts == s.ts
    ensures Core(s1)
  {
  }

  lemma RemoveThreads(s: State, t: nat)
    requires Placed(s, t)
    ensures Remove(s, t).ts == s.ts && Remove(s, t).cur == s.cur && Remove(s, t).lock == s.lock
        && |Remove(s, t).lists| == |s.lists|
  {
  }

  lemma ScheduleKeeps(s: State)
    requires Inv(s)
    ensures Findable(s) && (s.cur.Some? ==> Placed(s, s.cur.value)) && Inv(Schedule(s))
  {
    hide Agree, Remove, ListRight, Highest, Ffs;
    HighestReady(s);
    if s.cur.Some? {
      var c := s.cur.value;
      CorePlaced(s, c);
      if s.lock == 0 && s.group != 0 {
        if s.ts[c].stat.Running? && s.ts[c].prio < Highest(s) {
          RemoveCore(s, c, Running);
          RemoveThreads(s, c);
        } else {
          SwitchKeeps(s, c, s.lists[Highest(s)][0]);
        }
      }
    }
  }

  // ---------------------------------------------------------------- the calls

  /** rt_thread_resume. */
  function ResumeCall(s: State, t: nat): (State, Code)
    requires t < |s.ts| && (s.ts[t].stat.Suspend? ==> Placed(s, t))
  {
    if !s.ts[t].stat.Suspend? then (s, ERROR) else (Insert1(s, t), EOK)
  }

  /** rt_thread_suspend. */
  function SuspendCall(s: State, t: nat): (State, Code)
    requires t < |s.ts| && (!s.ts[t].stat.Init? ==> Placed(s, t))
  {
    if !s.ts[t].stat.Ready? && !s.ts[t].stat.Running? then (s, ERROR)
    else (WithStat(Remove(s, t), t, Suspend), EOK)
  }

  /** rt_thread_startup without its final rt_schedule. */
  function StartupCall(s: State, t: nat): State
    requires t < |s.ts| && s.ts[t].stat.Init? && s.ts[t].initPrio < |s.lists| <= 256 && |s.table| == GROUPS
  {
    var th := WithPrio(s.ts[t], s.ts[t].initPrio, TwoLevels(s.lists)).(stat := Suspend);
    Insert1(s.(ts := s.ts[t := th]), t)
  }

  /** rt_thread_control with RT_THREAD_CTRL_CHANGE_PRIORITY. */
  function PriorityCall(s: State, t: nat, p: nat): State
    requires t < |s.ts| && p < |s.lists| <= 256 && |s.table| == GROUPS && (s.ts[t].stat.Ready? ==> Placed(s, t))
  {
    if s.ts[t].stat.Ready? then
      var s1 := Remove(s, t);
      Insert1(s1.(ts := s1.ts[t := WithPrio(s1.ts[t], p, TwoLevels(s.lists))]), t)
    else s.(ts := s.ts[t := WithPrio(s.ts[t], p, TwoLevels(s.lists))])
  }

  lemma ResumeKeeps(s: State, t: nat)
    requires Inv(s) && t < |s.ts|
    ensures (s.ts[t].stat.Suspend? ==> Placed(s, t)) && Inv(ResumeCall(s, t).0)
  {
    hide Agree, ListRight;
    if s.ts[t].stat.Suspend? {
      CorePlaced(s, t);
      if s.cur == Some(t) { RunAgain(s, t); } else { InsertCore(s, t); }
    }
  }

  /** The current thread, resumed before it was switched out, just runs on. */
  lemma RunAgain(s: State, t: nat)
    requires Core(s) && t < |s.ts| && s.ts[t].stat.Suspend?
    ensures Core(WithStat(s, t, Running))
  {
    hide Agree;
    var s1 := WithStat(s, t, Running);
    forall q | 0 <= q < |s.lists|
      ensures ListRight(s1.lists[q], s1.ts, q)
    {
      assert ListRight(s.lists[q], s.ts, q);
    }
  }

  lemma SuspendKeeps(s: State, t: nat)
    requires Inv(s) && t < |s.ts|
    ensures (!s.ts[t].stat.Init? ==> Placed(s, t)) && Inv(SuspendCall(s, t).0)
  {
    hide Agree, ListRight, Remove;
    if !s.ts[t].stat.Init? {
      CorePlaced(s, t);
      RemoveCore(s, t, Suspend);
      RemoveThreads(s, t);
    }
  }

  /** New priority attributes for a thread that is on no list. */
  lemma AttributesCore(s: State, t: nat, th: Thread)
    requires Core(s) && t < |s.ts| && !s.ts[t].stat.Ready? && !th.stat.Ready?
        && ThreadRight(th, |s.lists|, TwoLevels(s.lists))
    ensures Core(s.(ts := s.ts[t := th]))
  {
    hide Agree;
    var s1 := s.(ts := s.ts[t := th]);
    forall q | 0 <= q < |s.lists|
      ensures ListRight(s1.lists[q], s1.ts, q)
    {
      assert ListRight(s.lists[q], s.ts, q);
    }
  }

  lemma StartupKeeps(s: State, t: nat)
    requires Inv(s) && t < |s.ts| && s.ts[t].stat.Init?
    ensures s.ts[t].initPrio < |s.lists| <= 256 && |s.table| == GROUPS && Inv(StartupCall(s, t))
  {
    hide ListRight;
    var th := WithPrio(s.ts[t], s.ts[t].initPrio, TwoLevels(s.lists)).(stat := Suspend);
    AttributesCore(s, t, th);
    InsertCore(s.(ts := s.ts[t := th]), t);
  }

  lemma PriorityKeeps(s: State, t: nat, p: nat)
    requires Inv(s) && t < |s.ts| && p < |s.lists|
    ensures |s.lists| <= 256 && |s.table| == GROUPS && (s.ts[t].stat.Ready? ==> Placed(s, t))
    ensures Inv(PriorityCall(s, t, p))
  {
    hide ListRight, Remove;
    if s.ts[t].stat.Ready? {
      CorePlaced(s, t);
      RemoveCore(s, t, Suspend);
      RemoveThreads(s, t);
      var off := WithStat(Remove(s, t), t, Suspend);
      var th := WithPrio(off.ts[t], p, TwoLevels(s.lists));
      AttributesCore(off, t, th);
      var on := off.(ts := off.ts[t := th]);
      InsertCore(on, t);
      SameInsert(s, t, p, off, on);
    } else {
      var th := WithPrio(s.ts[t], p, TwoLevels(s.lists));
      AttributesCore(s, t, th);
    }
  }

  /** The READY flag the code leaves set between remove and insert makes no
      difference. */
  lemma SameInsert(s: State, t: nat, p: nat, off: State, on: State)
    requires t < |s.ts| && p < |s.lists| <= 256 && |s.table| == GROUPS && s.ts[t].stat.Ready? && Placed(s, t)
        && s.cur != Some(t)
    requires off == WithStat(Remove(s, t), t, Suspend) && |off.ts| == |s.ts|
    requires on == off.(ts := off.ts[t := WithPrio(off.ts[t], p, TwoLevels(s.lists))]) && Placed(on, t)
    ensures Insert1(on, t) == PriorityCall(s, t, p)
  {
    assert Insert1(on, t).ts == PriorityCall(s, t, p).ts;
  }
}
