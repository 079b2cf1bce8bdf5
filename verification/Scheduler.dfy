/** rt-thread/src/scheduler.c and thread.c: the scheduler's own variables and the calls
    that change them. */
module Scheduler {
  import opened Common
  import opened Lists
  import opened Bitmap
  import opened SchedulerSpec
  import opened SchedulerTheorems

  class Kernel {
    const readyTable: array<nat>      // rt_thread_ready_table
    var priorityTable: seq<seq<nat>>  // rt_thread_priority_table
    var group: nat                    // rt_thread_ready_priority_group
    var threads: seq<Thread>
    var current: Option<nat>          // rt_current_thread
    var lockNest: nat                 // rt_scheduler_lock_nest

    ghost function Abs(): State
      reads this, readyTable
    {
      State(priorityTable, group, readyTable[..], threads, current, lockNest)
    }

    ghost predicate Valid()
      reads this, readyTable
    {
      Inv(Abs())
    }

    /** rt_system_scheduler_init for max priorities, and threads that were initialised
        but not started. */
    constructor (max: nat, prios: seq<nat>)
      requires 0 < max <= 256 && forall t {:trigger prios[t]} :: 0 <= t < |prios| ==> prios[t] < max
      ensures Valid() && Abs() == Initial(max, prios) && fresh(readyTable)
    {
      readyTable := new nat[GROUPS](_ => 0);
      priorityTable := seq(max, _ => []);
      group, current, lockNest := 0, None, 0;
      threads := seq(|prios|, t requires 0 <= t < |prios| => Thread(prios[t], prios[t], 0, 0, 0, Init));
      new;
      assert readyTable[..] == seq(GROUPS, _ => 0);
      InitialKeeps(max, prios);
    }

    /** rt_schedule_insert_thread. */
    method InsertThread(t: nat)
      requires Placed(Abs(), t)
      modifies this`priorityTable, this`group, this`threads, readyTable
      ensures Abs() == Insert1(old(Abs()), t)
    {
      if current == Some(t) {
        threads := threads[t := threads[t].(stat := Running)];
        return;
      }
      threads := threads[t := threads[t].(stat := Ready)];
      var th := threads[t];
      priorityTable := priorityTable[th.prio := priorityTable[th.prio] + [t]];
      if |priorityTable| > 32 {
        readyTable[th.number] := SetBit(readyTable[th.number], th.highBit);
      }
      group := SetBit(group, th.groupBit);
    }

    /** rt_schedule_remove_thread. */
    method RemoveThread(t: nat)
      requires Placed(Abs(), t)
      modifies this`priorityTable, this`group, readyTable
      ensures Abs() == Remove(old(Abs()), t)
    {
      var th := threads[t];
      priorityTable := priorityTable[th.prio := Without(priorityTable[th.prio], t)];
      if priorityTable[th.prio] == [] {
        if |priorityTable| > 32 {
          readyTable[th.number] := ClearBit(readyTable[th.number], th.highBit);
          if readyTable[th.number] == 0 { group := ClearBit(group, th.groupBit); }
        } else {
          group := ClearBit(group, th.groupBit);
        }
      }
    }

    /** _get_highest_priority_thread. */
    method HighestThread() returns (to: nat, p: nat)
      requires Findable(Abs()) && group != 0
      ensures p == Highest(Abs()) && p < |priorityTable| && priorityTable[p] != [] && to == priorityTable[p][0]
    {
      if |priorityTable| > 32 {
        var number := Ffs(group) - 1;
        p := 8 * number + Ffs(readyTable[number]) - 1;
      } else {
        p := Ffs(group) - 1;
      }
      to := priorityTable[p][0];
    }

    /** rt_schedule. */
    method Schedule()
      requires Valid()
      modifies this, readyTable
      ensures Valid() && Abs() == Planned(old(Abs()))
    {
      hide Core, Remove, Insert1, Highest;
      ScheduleKeeps(Abs());
      HighestReady(Abs());
      if lockNest == 0 && group != 0 && current.Some? {
        var needInsertFromThread := false;
        var to, p := HighestThread();
        var from := current.value;
        if threads[from].stat.Running? {
          if threads[from].prio < p { to := from; } else { needInsertFromThread := true; }
        }
        if to != from {
          SwitchPlaced(Abs(), from, to);
          current := Some(to);
          if needInsertFromThread { InsertThread(from); }
          RemoveThread(to);
          threads := threads[to := threads[to].(stat := Running)];
        } else {
          RemoveThread(from);
          threads := threads[from := threads[from].(stat := Running)];
        }
      }
    }

    /** rt_thread_resume. */
    method Resume(t: nat) returns (code: Code)
      requires Valid() && t < |threads|
      modifies this, readyTable
      ensures Valid() && (Abs(), code) == ResumeCall(old(Abs()), t)
    {
      ResumeKeeps(Abs(), t);
      hide Core, CurRight, Insert1;
      if !threads[t].stat.Suspend? { return ERROR; }
      InsertThread(t);
      code := EOK;
    }

    /** rt_thread_suspend; a running thread only suspends itself. */
    method Suspend(t: nat) returns (code: Code)
      requires Valid() && t < |threads|
      modifies this, readyTable
      ensures Valid() && (Abs(), code) == SuspendCall(old(Abs()), t)
    {
      SuspendKeeps(Abs(), t);
      hide Core, CurRight, Remove;
      if !threads[t].stat.Ready? && !threads[t].stat.Running? { return ERROR; }
      RemoveThread(t);
      threads := threads[t := threads[t].(stat := SchedulerSpec.Suspend)];
      code := EOK;
    }

    /** rt_thread_startup. */
    method Startup(t: nat)
      requires Valid() && t < |threads| && threads[t].stat.Init?
      modifies this, readyTable
      ensures Valid() && Abs() == Step(old(Abs()), SchedulerTheorems.Startup(t))
    {
      StartupKeeps(Abs(), t);
      hide Core, CurRight, Insert1;
      var th := WithPrio(threads[t], threads[t].initPrio, |priorityTable| > 32);
      threads := threads[t := th.(stat := SchedulerSpec.Suspend)];
      InsertThread(t);
      if current.Some? { Schedule(); }
    }

    /** rt_thread_control with RT_THREAD_CTRL_CHANGE_PRIORITY. */
    method ChangePriority(t: nat, p: nat)
      requires Valid() && t < |threads| && p < |priorityTable|
      modifies this, readyTable
      ensures Valid() && Abs() == PriorityCall(old(Abs()), t, p)
    {
      PriorityKeeps(Abs(), t, p);
      hide Core, CurRight, Insert1;
      if threads[t].stat.Ready? {
        RemoveThread(t);
        threads := threads[t := WithPrio(threads[t], p, |priorityTable| > 32)];
        InsertThread(t);
      } else {
        threads := threads[t := WithPrio(threads[t], p, |priorityTable| > 32)];
      }
    }

    /** rt_thread_timeout: a waiting thread is put back and the scheduler called. */
    method ThreadTimeout(t: nat)
      requires Valid() && t < |threads| && threads[t].stat.Suspend? && current.Some?
      modifies this, readyTable
      ensures Valid() && Abs() == Step(old(Abs()), Wake(t))
    {
      ResumeKeeps(Abs(), t);
      hide Core, CurRight, Insert1;
      InsertThread(t);
      Schedule();
    }

    /** rt_thread_sleep; the thread timer is not part of this object. */
    method Sleep()
      requires Valid() && current.Some? && current.value < |threads| && threads[current.value].stat.Running?
      modifies this, readyTable
      ensures Valid() && Abs() == Step(old(Abs()), SchedulerTheorems.Sleep)
    {
      hide Inv, SuspendCall, SchedulerSpec.Schedule;
      var code := Suspend(current.value);
      Schedule();
    }

    method EnterCritical()
      requires Valid() && lockNest < MAX_NEST
      modifies this`lockNest
      ensures Valid() && lockNest == old(lockNest) + 1
    {
      LockKeeps(Abs(), lockNest + 1);
      lockNest := lockNest + 1;
    }

    /** rt_exit_critical: unlocking the last level schedules. */
    method ExitCritical()
      requires Valid()
      modifies this, readyTable
      ensures Valid() && Abs() == Step(old(Abs()), Exit)
    {
      hide Inv, SchedulerSpec.Schedule;
      LockKeeps(Abs(), if lockNest <= 1 then 0 else lockNest - 1);
      var nest: int := lockNest - 1;
      if nest <= 0 {
        lockNest := 0;
        if current.Some? { Schedule(); }
      } else {
        lockNest := nest;
      }
    }

    /** rt_system_scheduler_start, up to the first context switch. */
    method Start()
      requires Valid() && current.None? && group != 0
      modifies this, readyTable
      ensures Valid() && Abs() == Begin(old(Abs()))
    {
      hide Core, Remove, Highest, CurRight;
      BeginKeeps(Abs());
      HighestReady(Abs());
      var to, p := HighestThread();
      current := Some(to);
      RemoveThread(to);
      threads := threads[to := threads[to].(stat := Running)];
    }
  }

  /** The new thread can still be taken off its list once the old one has joined. */
  lemma SwitchPlaced(s: State, c: nat, to: nat)
    requires Inv(s) && s.cur == Some(c) && to < |s.ts| && s.ts[to].stat.Ready? && c != to
    ensures Placed(s, c) && Placed(s, to)
    ensures Placed(Insert1(s.(cur := Some(to)), c), to) && Insert1(s.(cur := Some(to)), c).cur == Some(to)
  {
    CorePlaced(s, c);
    CorePlaced(s, to);
  }
}
