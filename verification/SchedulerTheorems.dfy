/** rt-thread/src/scheduler.c and thread.c: what holds over whole runs. */
module SchedulerTheorems {
  import opened Common
  import opened Lists
  import opened Bitmap
  import opened SchedulerSpec

  datatype Op = Start | Startup(t: nat) | ResumeOp(t: nat) | SuspendOp(t: nat) | Priority(t: nat, p: nat)
              | Yield | Sleep | Wake(t: nat) | Enter | Exit

  const MAX_NEST: nat := 0x7FFF        // rt_scheduler_lock_nest is a rt_int16_t

  predicate Enabled(s: State, op: Op) {
    match op
    case Start => s.cur.None? && s.group != 0
    case Startup(t) => t < |s.ts| && s.ts[t].stat.Init?
    case ResumeOp(t) => t < |s.ts|
    case SuspendOp(t) => t < |s.ts|
    case Priority(t, p) => t < |s.ts| && p < |s.lists|
    case Yield => s.cur.Some?
    case Sleep => s.cur.Some? && s.cur.value < |s.ts| && s.ts[s.cur.value].stat.Running?
    case Wake(t) => s.cur.Some? && t < |s.ts| && s.ts[t].stat.Suspend?
    case Enter => s.lock < MAX_NEST
    case Exit => true
  }

  /** rt_system_scheduler_start. */
  ghost function Begin(s: State): State
    requires Inv(s) && s.cur.None? && s.group != 0
  {
    HighestReady(s);
    var to := s.lists[Highest(s)][0];
    WithStat(Remove(s.(cur := Some(to)), to), to, Running)
  }

  ghost function Planned(s: State): State
    requires Inv(s)
  {
    ScheduleKeeps(s);
    Schedule(s)
  }

  ghost function Step(s: State, op: Op): State
    requires Inv(s) && Enabled(s, op)
  {
    match op
    case Start => Begin(s)
    case Startup(t) => StartupKeeps(s, t); if s.cur.Some? then Planned(StartupCall(s, t)) else StartupCall(s, t)
    case ResumeOp(t) => ResumeKeeps(s, t); ResumeCall(s, t).0
    case SuspendOp(t) => SuspendKeeps(s, t); SuspendCall(s, t).0
    case Priority(t, p) => PriorityKeeps(s, t, p); PriorityCall(s, t, p)
    case Yield => Planned(s)
    case Sleep => SuspendKeeps(s, s.cur.value); Planned(SuspendCall(s, s.cur.value).0)
    case Wake(t) => ResumeKeeps(s, t); Planned(ResumeCall(s, t).0)
    case Enter => s.(lock := s.lock + 1)
    case Exit => var s1 := s.(lock := if s.lock <= 1 then 0 else s.lock - 1);
      if s1.lock == 0 && s.cur.Some? then LockKeeps(s, 0); Planned(s1) else s1
  }

  lemma LockKeeps(s: State, lock: nat)
    requires Inv(s)
    ensures Inv(s.(lock := lock))
  {
    SameCore(s, s.(lock := lock));
  }

  lemma BeginKeeps(s: State)
    requires Inv(s) && s.cur.None? && s.group != 0
    ensures Inv(Begin(s))
  {
    hide Agree, ListRight, Remove, Highest;
    HighestReady(s);
    var to := s.lists[Highest(s)][0];
    var s1 := s.(cur := Some(to));
    SameCore(s, s1);
    RemoveCore(s1, to, Running);
    RemoveThreads(s1, to);
  }

  lemma StepKeeps(s: State, op: Op)
    requires Inv(s) && Enabled(s, op)
    ensures Inv(Step(s, op))
  {
    hide Inv, Schedule, StartupCall, ResumeCall, SuspendCall, PriorityCall, Begin;
    match op
    case Start => BeginKeeps(s);
    case Startup(t) => StartupKeeps(s, t); ScheduleKeeps(StartupCall(s, t));
    case ResumeOp(t) => ResumeKeeps(s, t);
    case SuspendOp(t) => SuspendKeeps(s, t);
    case Priority(t, p) => PriorityKeeps(s, t, p);
    case Yield => ScheduleKeeps(s);
    case Sleep => SuspendKeeps(s, s.cur.value); ScheduleKeeps(SuspendCall(s, s.cur.value).0);
    case Wake(t) => ResumeKeeps(s, t); ScheduleKeeps(ResumeCall(s, t).0);
    case Enter => LockKeeps(s, s.lock + 1);
    case Exit =>
      LockKeeps(s, if s.lock <= 1 then 0 else s.lock - 1);
      ScheduleKeeps(s.(lock := if s.lock <= 1 then 0 else s.lock - 1));
  }

  ghost function Run(s: State, ops: seq<Op>): State
    requires Inv(s)
    decreases |ops|
  {
    if ops == [] then s
    else if !Enabled(s, ops[0]) then Run(s, ops[1..])
    else
      StepKeeps(s, ops[0]);
      Run(Step(s, ops[0]), ops[1..])
  }

  /** Over every run, with one or two bitmap levels: RUNNING means current, a thread is
      READY exactly when it is on the list of its own priority, once, and every bit says
      whether its list is empty. */
  lemma {:induction false} RunsKeepScheduler(s: State, ops: seq<Op>)
    requires Inv(s)
    ensures Inv(Run(s, ops))
    decreases |ops|
  {
    hide Inv, Step, Enabled;
    if ops != [] {
      if Enabled(s, ops[0]) {
        StepKeeps(s, ops[0]);
        RunsKeepScheduler(Step(s, ops[0]), ops[1..]);
      } else {
        RunsKeepScheduler(s, ops[1..]);
      }
    }
  }

  /** What the invariant says of a single thread. */
  lemma ReadyMeansListed(s: State, t: nat, p: nat)
    requires Inv(s) && t < |s.ts| && p < |s.lists|
    ensures s.ts[t].stat.Running? ==> s.cur == Some(t)
    ensures t in s.lists[p] <==> s.ts[t].stat.Ready? && s.ts[t].prio == p
    ensures multiset(s.lists[p])[t] <= 1
  {
    assert ListRight(s.lists[p], s.ts, p);
    NoDupOnce(s.lists[p], t);
  }

  lemma {:induction false} NoDupOnce(list: seq<nat>, t: nat)
    requires NoDup(list)
    ensures multiset(list)[t] <= 1
    decreases |list|
  {
    if list != [] {
      HeadGone(list);
      NoDupOnce(list[1..], t);
      assert list == [list[0]] + list[1..];
    }
  }

  // ---------------------------------------------------------------- the most urgent thread runs

  /** Some thread can run: the idle thread sees to that. */
  ghost predicate Runnable(s: State) {
    exists t {:trigger s.ts[t]} :: 0 <= t < |s.ts| && (s.ts[t].stat.Ready? || s.ts[t].stat.Running?)
  }

  /** After an unlocked rt_schedule the current thread is RUNNING and at least as urgent
      as every READY thread. */
  lemma MostUrgentRuns(s: State)
    requires Inv(s) && s.lock == 0 && s.cur.Some? && Runnable(s)
    ensures var s1 := Planned(s);
      && s1.cur.Some? && s1.cur.value < |s1.ts| && s1.ts[s1.cur.value].stat.Running?
      && forall t {:trigger s1.ts[t]} ::
          0 <= t < |s1.ts| && s1.ts[t].stat.Ready? ==> s1.ts[s1.cur.value].prio <= s1.ts[t].prio
  {
    hide Agree, Remove, ListRight, Highest, Ffs;
    ScheduleKeeps(s);
    HighestReady(s);
    var c := s.cur.value;
    CorePlaced(s, c);
    if s.group != 0 {
      RemoveThreads(s, c);
      if !(s.ts[c].stat.Running? && s.ts[c].prio < Highest(s)) {
        SwitchThreads(s, c, s.lists[Highest(s)][0]);
      }
    }
  }

  lemma SwitchThreads(s: State, c: nat, to: nat)
    requires Placed(s, c) && Placed(s, to) && c != to
    ensures var s1 := SwitchTo(s, c, to);
      && s1.cur == Some(to) && |s1.ts| == |s.ts| && s1.lock == s.lock && |s1.lists| == |s.lists|
      && s1.ts == (if s.ts[c].stat.Running? then s.ts[c := s.ts[c].(stat := Ready)]
          else s.ts)[to := s.ts[to].(stat := Running)]
  {
  }

  /** The lists after a switch: the old current thread joins the tail of its list if it
      was running, the new one leaves the head of its own. */
  lemma SwitchLists(s: State, c: nat, to: nat, p: nat)
    requires Inv(s) && s.cur == Some(c) && Placed(s, c) && Placed(s, to) && c != to && p < |s.lists|
    requires s.ts[to].prio == p && s.lists[p] != [] && s.lists[p][0] == to
    ensures SwitchTo(s, c, to).lists[p] ==
        s.lists[p][1..] + (if s.ts[c].stat.Running? && s.ts[c].prio == p then [c] else [])
  {
    assert ListRight(s.lists[p], s.ts, p);
    HeadGone(s.lists[p]);
    var more := if s.ts[c].stat.Running? && s.ts[c].prio == p then [c] else [];
    WithoutHead(s.lists[p], more);
    assert more == [] ==> s.lists[p] + more == s.lists[p];
  }

  lemma WithoutHead(list: seq<nat>, more: seq<nat>)
    requires list != [] && list[0] !in list[1..] && list[0] !in more
    ensures Without(list + more, list[0]) == list[1..] + more
  {
    var all := list + more;
    assert all[0] == list[0] && all[1..] == list[1..] + more;
    NoneWithout(all[1..], list[0]);
  }

  // ---------------------------------------------------------------- round robin

  ghost function ScheduleN(s: State, n: nat): State
    requires Inv(s)
    decreases n
  {
    if n == 0 then s
    else
      ScheduleKeeps(s);
      ScheduleN(Schedule(s), n - 1)
  }

  /** The current thread is not more urgent than the ready ones. */
  ghost predicate MustYield(s: State, p: nat) {
    && s.lock == 0 && s.cur.Some? && s.cur.value < |s.ts|
    && (s.ts[s.cur.value].stat.Running? ==> p <= s.ts[s.cur.value].prio)
    && p < |s.lists| && s.lists[p] != [] && forall q {:trigger s.lists[q]} :: 0 <= q < p ==> s.lists[q] == []
  }

  lemma OneTurn(s: State, p: nat)
    requires Inv(s) && MustYield(s, p)
    ensures Findable(s) && Placed(s, s.cur.value)
    ensures var s1 := Schedule(s);
      && Inv(s1) && s1.cur == Some(s.lists[p][0]) && |s1.lists| == |s.lists|
      && s1.lists[p] ==
          s.lists[p][1..] +
          (if s.ts[s.cur.value].stat.Running? && s.ts[s.cur.value].prio == p then [s.cur.value] else [])
      && (s1.lists[p] != [] ==> MustYield(s1, p))
  {
    hide Agree, Remove, Highest, Ffs;
    ScheduleKeeps(s);
    HighestIsLeast(s);
    HighestReady(s);
    var c := s.cur.value;
    assert Highest(s) == p;
    CorePlaced(s, c);
    var to := s.lists[p][0];
    SwitchThreads(s, c, to);
    SwitchLists(s, c, to, p);
    var s1 := Schedule(s);
    forall q | 0 <= q < p
      ensures s1.lists[q] == []
    {
      NoneMoreUrgent(s, s1, p, q);
    }
  }

  lemma NoneMoreUrgent(s: State, s1: State, p: nat, q: nat)
    requires Inv(s) && Inv(s1) && MustYield(s, p) && q < p && |s1.lists| == |s.lists| && |s1.ts| == |s.ts|
        && s.cur.Some?
    requires forall t {:trigger s1.ts[t]} :: 0 <= t < |s1.ts| && s1.ts[t].stat.Ready? ==>
      s1.ts[t].prio == s.ts[t].prio && (s.ts[t].stat.Ready? || (s.cur == Some(t) && s.ts[t].stat.Running?))
    ensures s1.lists[q] == []
  {
    assert s.lists[q] == [] && ListRight(s.lists[q], s.ts, q) && ListRight(s1.lists[q], s1.ts, q);
    forall t | 0 <= t < |s1.ts|
      ensures t !in s1.lists[q]
    {
      assert t !in s.lists[q];
    }
    if s1.lists[q] != [] { SomeListed(s1.lists[q], |s1.ts|); }
  }

  lemma SomeListed(list: seq<nat>, n: nat)
    requires InRange(list, n) && list != []
    ensures list[0] < n && list[0] in list
  {
  }

  /** With k equally most urgent threads ready, the one at place i of their queue is the
      current thread after i + 1 schedules. */
  lemma {:induction false} RoundRobin(s: State, p: nat, i: nat)
    requires Inv(s) && MustYield(s, p) && i < |s.lists[p]|
    ensures ScheduleN(s, i + 1).cur == Some(s.lists[p][i])
    decreases i
  {
    hide Inv, Schedule;
    OneTurn(s, p);
    var s1 := Schedule(s);
    assert ScheduleN(s1, 0) == s1;
    if i > 0 {
      RoundRobin(s1, p, i - 1);
      assert ScheduleN(s, i + 1) == ScheduleN(s1, i);
    }
  }

  // ---------------------------------------------------------------- the start

  function Initial(max: nat, prios: seq<nat>): State {
    State(seq(max, _ => []), 0, seq(GROUPS, _ => 0),
        seq(|prios|, t requires 0 <= t < |prios| => Thread(prios[t], prios[t], 0, 0, 0, Init)), None, 0)
  }

  lemma InitialKeeps(max: nat, prios: seq<nat>)
    requires 0 < max <= 256 && forall t {:trigger prios[t]} :: 0 <= t < |prios| ==> prios[t] < max
    ensures Inv(Initial(max, prios))
  {
    var s := Initial(max, prios);
    forall k: nat
      ensures !Bit(0, k)
    {
      NoBits(k);
    }
    forall p | 0 <= p < max
      ensures BitAgrees(s.lists, s.group, s.table, p)
    {
    }
    forall n | 0 <= n < GROUPS
      ensures GroupAgrees(s.group, s.table, n)
    {
    }
  }
}
