/** rt-thread/src/scheduler.c and thread.c: what each call returns, which thread it changes,
    and where on the ready lists it leaves it. */
module SchedulerCalls {
  import opened Common
  import opened Lists
  import opened SchedulerSpec
  import opened SchedulerTheorems

  /** Thread t has become th, and no other thread has changed. */
  ghost predicate Becomes(s: State, s1: State, t: nat, th: Thread) {
    && t < |s.ts| == |s1.ts| && s1.ts[t] == th
    && forall u {:trigger s1.ts[u]} :: 0 <= u < |s.ts| && u != t ==> s1.ts[u] == s.ts[u]
  }

  /** t has left its ready list, if it was on one; all others stay where they were. */
  ghost predicate OffLists(s: State, s1: State, t: nat) {
    |s1.lists| == |s.lists| && forall p {:trigger s1.lists[p]} :: 0 <= p < |s.lists| ==>
      && t !in s1.lists[p]
      && if t in s.lists[p] then Leaves(s.lists[p], s1.lists[p], t) else s1.lists[p] == s.lists[p]
  }

  /** t is the last on the list of priority q; all others stay where they were. */
  ghost predicate AtTheEnd(s: State, s1: State, t: nat, q: nat) {
    |s1.lists| == |s.lists| && forall p {:trigger s1.lists[p]} :: 0 <= p < |s.lists| ==>
      s1.lists[p] == s.lists[p] + (if p == q then [t] else [])
  }

  lemma RemoveOff(s: State, t: nat)
    requires Inv(s) && t < |s.ts| && !s.ts[t].stat.Init?
    ensures Placed(s, t) && OffLists(s, Remove(s, t), t)
  {
    hide Agree, ListRight, Leaves;
    CorePlaced(s, t);
    var s1 := Remove(s, t);
    forall p | 0 <= p < |s.lists|
      ensures t !in s1.lists[p]
      ensures if t in s.lists[p] then Leaves(s.lists[p], s1.lists[p], t) else s1.lists[p] == s.lists[p]
    {
      OnlyOwnList(s, t, p);
      WithoutMembers(s.lists[p], t);
      if t in s.lists[p] { WithoutLeaves(s.lists[p], t); } else { NoneWithout(s.lists[p], t); }
    }
  }

  lemma OnlyOwnList(s: State, t: nat, p: nat)
    requires Inv(s) && t < |s.ts| && p < |s.lists|
    ensures NoDup(s.lists[p]) && (t in s.lists[p] <==> s.ts[t].stat.Ready? && s.ts[t].prio == p)
  {
    assert ListRight(s.lists[p], s.ts, p);
  }

  /** rt_thread_suspend succeeds just on a ready or running thread; that thread is then
      suspended and on no ready list, and everything else is as it was. */
  lemma SuspendVerdict(s: State, t: nat)
    requires Inv(s) && t < |s.ts|
    ensures !s.ts[t].stat.Init? ==> Placed(s, t)
    ensures var (s1, code) := SuspendCall(s, t);
      if s.ts[t].stat.Ready? || s.ts[t].stat.Running? then
        && code == EOK && Becomes(s, s1, t, s.ts[t].(stat := SchedulerSpec.Suspend)) && OffLists(s, s1, t)
        && s1.cur == s.cur && s1.lock == s.lock
      else code == ERROR && s1 == s
  {
    hide Agree, OffLists, Remove;
    SuspendKeeps(s, t);
    if s.ts[t].stat.Ready? || s.ts[t].stat.Running? {
      RemoveOff(s, t);
      RemoveThreads(s, t);
      SameLists(s, Remove(s, t), SuspendCall(s, t).0, t);
    }
  }

  lemma SameLists(s: State, s1: State, s2: State, t: nat)
    requires OffLists(s, s1, t) && s2.lists == s1.lists
    ensures OffLists(s, s2, t)
  {
  }

  /** rt_thread_resume succeeds just on a suspended thread. It becomes ready at the end of
      the list of its priority; only the current thread, resumed before it was switched
      out, runs on. Everything else is as it was. */
  lemma ResumeVerdict(s: State, t: nat)
    requires Inv(s) && t < |s.ts|
    ensures s.ts[t].stat.Suspend? ==> Placed(s, t)
    ensures var (s1, code) := ResumeCall(s, t);
      if !s.ts[t].stat.Suspend? then code == ERROR && s1 == s
      else
        && code == EOK && s1.cur == s.cur && s1.lock == s.lock
        && if s.cur == Some(t) then Becomes(s, s1, t, s.ts[t].(stat := Running)) && s1.lists == s.lists
           else
             && Becomes(s, s1, t, s.ts[t].(stat := SchedulerSpec.Ready))
             && AtTheEnd(s, s1, t, s.ts[t].prio)
  {
    hide Agree, ListRight;
    ResumeKeeps(s, t);
  }

  /** rt_thread_startup: the thread has its initial priority and is ready at the end of
      that list; everything else is as it was. */
  lemma StartupVerdict(s: State, t: nat)
    requires Inv(s) && t < |s.ts| && s.ts[t].stat.Init?
    ensures s.ts[t].initPrio < |s.lists| <= 256 && |s.table| == GROUPS
    ensures var s1 := StartupCall(s, t);
      && s1.cur == s.cur && s1.lock == s.lock && |s1.ts| == |s.ts|
      && Becomes(s, s1, t, s1.ts[t]) && s1.ts[t].stat.Ready?
      && s1.ts[t].prio == s1.ts[t].initPrio == s.ts[t].initPrio && AtTheEnd(s, s1, t, s.ts[t].initPrio)
  {
    hide Agree, ListRight;
    StartupKeeps(s, t);
  }

  /** A change of priority: the thread has the new one, and its state is what it was; a
      ready one goes to the end of the list of its new priority. */
  lemma PriorityVerdict(s: State, t: nat, p: nat)
    requires Inv(s) && t < |s.ts| && p < |s.lists|
    ensures |s.lists| <= 256 && |s.table| == GROUPS && (s.ts[t].stat.Ready? ==> Placed(s, t))
    ensures var s1 := PriorityCall(s, t, p);
      && s1.cur == s.cur && s1.lock == s.lock && |s1.ts| == |s.ts|
      && Becomes(s, s1, t, s1.ts[t]) && s1.ts[t].prio == p
      && s1.ts[t].stat == s.ts[t].stat && s1.ts[t].initPrio == s.ts[t].initPrio
      && if s.ts[t].stat.Ready? then Relisted(s, s1, t, p) else s1.lists == s.lists
  {
    hide Agree, ListRight, Remove, Relisted;
    PriorityKeeps(s, t, p);
    if s.ts[t].stat.Ready? {
      RemoveOff(s, t);
      RemoveThreads(s, t);
      AppendedAfter(s, Remove(s, t), PriorityCall(s, t, p), t, p);
    }
  }

  /** t has left its list, and is then last on that of priority q. */
  ghost predicate Relisted(s: State, s1: State, t: nat, q: nat) {
    exists mid {:trigger OffLists(s, mid, t)} :: OffLists(s, mid, t) && AtTheEnd(mid, s1, t, q)
  }

  lemma AppendedAfter(s: State, mid: State, s1: State, t: nat, q: nat)
    requires OffLists(s, mid, t) && q < |mid.lists| && s1.lists == mid.lists[q := mid.lists[q] + [t]]
    ensures Relisted(s, s1, t, q)
  {
    hide OffLists;
    assert AtTheEnd(mid, s1, t, q);
  }

  // ---------------------------------------------------------------- rt_schedule

  /** p is the most urgent priority with a ready thread. */
  ghost predicate Foremost(s: State, p: nat) {
    p < |s.lists| && s.lists[p] != [] && forall q {:trigger s.lists[q]} :: 0 <= q < p ==> s.lists[q] == []
  }

  /** Locked, before the start, or with nothing ready, rt_schedule does nothing. */
  lemma ScheduleIdle(s: State)
    requires Inv(s)
    requires s.lock != 0 || s.cur.None? || forall q {:trigger s.lists[q]} :: 0 <= q < |s.lists| ==> s.lists[q] == []
    ensures Planned(s) == s
  {
    hide Agree, Remove, Highest;
    ScheduleKeeps(s);
    HighestIsLeast(s);
  }

  /** Otherwise a running thread more urgent than all ready ones stays; any other makes way
      for the first of the most urgent ready ones, and is ready itself, at the end of its
      list, if it was running. */
  lemma ScheduleVerdict(s: State, p: nat)
    requires Inv(s) && s.lock == 0 && s.cur.Some? && Foremost(s, p)
    ensures s.cur.value < |s.ts| && s.lists[p][0] < |s.ts|
    ensures var s1, c, to := Planned(s), s.cur.value, s.lists[p][0];
      && s1.lock == 0 && |s1.ts| == |s.ts|
      && if s.ts[c].stat.Running? && s.ts[c].prio < p then s1.cur == s.cur && s1.ts == s.ts && s1.lists == s.lists
         else
           && s1.cur == Some(to) && c != to && s.ts[to].prio == p
           && s1.ts[to] == s.ts[to].(stat := Running)
           && s1.ts[c] == (if s.ts[c].stat.Running? then s.ts[c].(stat := SchedulerSpec.Ready) else s.ts[c])
           && (forall t {:trigger s1.ts[t]} :: 0 <= t < |s.ts| && t != c && t != to ==> s1.ts[t] == s.ts[t])
           && Turned(s, s1, c, p)
  {
    hide Agree, Remove, ListRight, Highest, Turned;
    ScheduleKeeps(s);
    HighestIsLeast(s);
    HighestReady(s);
    assert Highest(s) == p;
    var c, to := s.cur.value, s.lists[p][0];
    CorePlaced(s, c);
    if s.ts[c].stat.Running? && s.ts[c].prio < p {
      NotListed(s, c);
      RemoveThreads(s, c);
    } else {
      SwitchThreads(s, c, to);
      TurnedLists(s, c, to, p);
    }
  }

  /** The first of list p is off it, and c is at the end of its list if it was running. */
  ghost predicate Turned(s: State, s1: State, c: nat, p: nat)
    requires c < |s.ts| && p < |s.lists| && s.lists[p] != []
  {
    |s1.lists| == |s.lists| && forall q {:trigger s1.lists[q]} :: 0 <= q < |s.lists| ==>
      s1.lists[q] == (if q == p then s.lists[q][1..] else s.lists[q])
        + (if s.ts[c].stat.Running? && s.ts[c].prio == q then [c] else [])
  }

  lemma NotListed(s: State, c: nat)
    requires Inv(s) && c < |s.ts| && s.ts[c].stat.Running? && Placed(s, c)
    ensures Remove(s, c).lists == s.lists
  {
    OnlyOwnList(s, c, s.ts[c].prio);
    NoneWithout(s.lists[s.ts[c].prio], c);
  }

  lemma TurnedLists(s: State, c: nat, to: nat, p: nat)
    requires Inv(s) && s.cur == Some(c) && Placed(s, c) && Placed(s, to) && c != to && p < |s.lists|
    requires s.ts[to].prio == p && s.lists[p] != [] && s.lists[p][0] == to
    ensures Turned(s, SwitchTo(s, c, to), c, p)
  {
    hide Inv, SwitchTo;
    SwitchThreads(s, c, to);
    forall q | 0 <= q < |s.lists|
      ensures SwitchTo(s, c, to).lists[q] == (if q == p then s.lists[q][1..] else s.lists[q])
        + (if s.ts[c].stat.Running? && s.ts[c].prio == q then [c] else [])
    {
      if q == p { SwitchLists(s, c, to, p); } else { OtherList(s, c, to, q); }
    }
  }

  lemma OtherList(s: State, c: nat, to: nat, q: nat)
    requires Placed(s, c) && Placed(s, to) && q < |s.lists| && q != s.ts[to].prio && c != to
    ensures |SwitchTo(s, c, to).lists| == |s.lists|
    ensures SwitchTo(s, c, to).lists[q] == s.lists[q] + (if s.ts[c].stat.Running? && s.ts[c].prio == q then [c] else [])
  {
  }

  // ---------------------------------------------------------------- calls that schedule

  /** The current thread runs, and no ready thread is more urgent. */
  ghost predicate BestRuns(s: State) {
    && s.cur.Some? && s.cur.value < |s.ts| && s.ts[s.cur.value].stat.Running?
    && forall t {:trigger s.ts[t]} :: 0 <= t < |s.ts| && s.ts[t].stat.Ready? ==> s.ts[s.cur.value].prio <= s.ts[t].prio
  }

  /** rt_thread_sleep, not locked and with somebody else ready: the sleeper is suspended, on
      no list, and not current; the most urgent of the others runs. */
  lemma SleepVerdict(s: State, other: nat)
    requires Inv(s) && s.lock == 0 && Enabled(s, Sleep) && other < |s.ts| && s.ts[other].stat.Ready?
    ensures var s1, c := Step(s, Sleep), s.cur.value;
      && |s1.ts| == |s.ts| && s1.ts[c].stat.Suspend? && s1.cur != Some(c) && BestRuns(s1)
      && forall q {:trigger s1.lists[q]} :: 0 <= q < |s1.lists| ==> c !in s1.lists[q]
  {
    hide Core, Schedule, SuspendCall, OffLists;
    var c := s.cur.value;
    SuspendVerdict(s, c);
    SuspendKeeps(s, c);
    var mid := SuspendCall(s, c).0;
    assert mid.ts[other].stat.Ready?;
    MostUrgentRuns(mid);
    ScheduleStat(mid, c);
    StepKeeps(s, Sleep);
    var s1 := Step(s, Sleep);
    forall q | 0 <= q < |s1.lists|
      ensures c !in s1.lists[q]
    {
      OnlyOwnList(s1, c, q);
    }
  }

  /** rt_schedule wakes nobody up. */
  lemma ScheduleStat(s: State, t: nat)
    requires Inv(s) && t < |s.ts| && s.ts[t].stat.Suspend?
    ensures var s1 := Planned(s); |s1.ts| == |s.ts| && s1.ts[t] == s.ts[t]
  {
    hide Agree, ListRight, Remove, Highest;
    ScheduleKeeps(s);
    HighestReady(s);
    if s.lock == 0 && s.group != 0 && s.cur.Some? {
      var c := s.cur.value;
      CorePlaced(s, c);
      RemoveThreads(s, c);
      if !(s.ts[c].stat.Running? && s.ts[c].prio < Highest(s)) { SwitchThreads(s, c, s.lists[Highest(s)][0]); }
    }
  }

  /** A thread that times out is ready or running afterwards; not locked, the most urgent
      thread runs. */
  lemma WakeVerdict(s: State, t: nat)
    requires Inv(s) && Enabled(s, Wake(t))
    ensures var s1 := Step(s, Wake(t));
      && |s1.ts| == |s.ts| && (s1.ts[t].stat.Ready? || (s1.ts[t].stat.Running? && s1.cur == Some(t)))
      && (s.lock == 0 ==> BestRuns(s1))
  {
    hide Core, Schedule, ResumeCall, AtTheEnd;
    ResumeVerdict(s, t);
    ResumeKeeps(s, t);
    var mid := ResumeCall(s, t).0;
    assert mid.ts[t].stat.Ready? || mid.ts[t].stat.Running?;
    ScheduleStays(mid, t);
    StepKeeps(s, Wake(t));
    if s.lock == 0 { MostUrgentRuns(mid); }
  }

  /** rt_schedule suspends nobody. */
  lemma ScheduleStays(s: State, t: nat)
    requires Inv(s) && t < |s.ts| && (s.ts[t].stat.Ready? || s.ts[t].stat.Running?)
    ensures var s1 := Planned(s); |s1.ts| == |s.ts| && (s1.ts[t].stat.Ready? || s1.ts[t].stat.Running?)
  {
    hide Agree, ListRight, Remove, Highest;
    ScheduleKeeps(s);
    HighestReady(s);
    if s.lock == 0 && s.group != 0 && s.cur.Some? {
      var c := s.cur.value;
      CorePlaced(s, c);
      RemoveThreads(s, c);
      if !(s.ts[c].stat.Running? && s.ts[c].prio < Highest(s)) { SwitchThreads(s, c, s.lists[Highest(s)][0]); }
    }
  }

  /** rt_enter_critical and rt_exit_critical count; leaving the last level schedules, and
      nothing else does. */
  lemma CriticalVerdict(s: State)
    requires Inv(s)
    ensures s.lock < MAX_NEST ==> Step(s, Enter) == s.(lock := s.lock + 1)
    ensures s.lock > 1 ==> Step(s, Exit) == s.(lock := s.lock - 1)
    ensures s.lock <= 1 ==> Step(s, Exit).lock == 0
    ensures s.lock <= 1 && s.cur.Some? && Runnable(s) ==> BestRuns(Step(s, Exit))
  {
    hide Core, Schedule;
    LockKeeps(s, 0);
    var open := s.(lock := 0);
    ScheduleLock(open);
    if s.cur.Some? && Runnable(s) {
      assert Runnable(open);
      MostUrgentRuns(open);
    }
  }

  lemma ScheduleLock(s: State)
    requires Inv(s)
    ensures Planned(s).lock == s.lock
  {
    hide Agree, ListRight, Remove, Highest;
    ScheduleKeeps(s);
    HighestReady(s);
    if s.lock == 0 && s.group != 0 && s.cur.Some? {
      var c := s.cur.value;
      CorePlaced(s, c);
      RemoveThreads(s, c);
      if !(s.ts[c].stat.Running? && s.ts[c].prio < Highest(s)) { SwitchThreads(s, c, s.lists[Highest(s)][0]); }
    }
  }

  /** rt_system_scheduler_start: the first of the most urgent ready threads runs. */
  lemma StartVerdict(s: State, p: nat)
    requires Inv(s) && s.cur.None? && Foremost(s, p)
    ensures s.group != 0 && s.lists[p][0] < |s.ts|
    ensures var s1, to := Begin(s), s.lists[p][0];
      s1.cur == Some(to) && s1.lock == s.lock && Becomes(s, s1, to, s.ts[to].(stat := Running)) && OffLists(s, s1, to)
  {
    hide Agree, ListRight, Remove, Highest, OffLists;
    HighestIsLeast(s);
    HighestReady(s);
    assert Highest(s) == p;
    var to := s.lists[p][0];
    SameRemove(s, to);
    RemoveOff(s, to);
    RemoveThreads(s.(cur := Some(to)), to);
    SameLists(s, Remove(s, to), Begin(s), to);
  }

  lemma SameRemove(s: State, t: nat)
    requires Placed(s, t)
    ensures Remove(s.(cur := Some(t)), t).lists == Remove(s, t).lists
  {
  }
}
