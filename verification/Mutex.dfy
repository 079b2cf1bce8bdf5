/** rt-thread/src/ipc.c, mutexes: the object, one method per atomic region. */
module Mutex {
  import opened Common
  import opened IpcWait
  import opened Lists
  import opened MutexSpec

  class Lock {
    const flag: Flag
    var value: nat
    var original: nat                 // original_priority
    var hold: nat
    var owner: Option<nat>
    var wait: seq<nat>                // parent.suspend_thread
    var threads: seq<Thread<Call>>
    var prio: seq<nat>                // current_priority of every thread

    ghost function Abs(): State
      reads this
    {
      State(value, owner, original, hold, wait, threads, prio)
    }

    /** Every method keeps this; what it says of the hold counter is Counted. */
    ghost predicate Valid(base: seq<nat>)
      reads this
    {
      Steady(Abs(), base)
    }

    /** rt_mutex_init. */
    constructor (f: Flag, priorities: seq<nat>)
      ensures Valid(priorities) && Counted(Abs()) && flag == f && prio == priorities && owner == None && wait == []
    {
      flag, value, owner, original, hold, wait := f, 1, None, NO_PRIORITY, 0, [];
      threads := seq(|priorities|, _ => Thread(EOK, Idle));
      prio := priorities;
    }

    /** rt_mutex_take up to its return or rt_schedule. */
    method TakeEnter(t: nat, timeout: int, ghost base: seq<nat>) returns (o: Outcome)
      requires Valid(base) && t < |threads| && threads[t].phase.Idle?
      modifies this
      ensures (Abs(), o) == MutexSpec.TakeEnter(old(Abs()), t, timeout, flag)
      ensures Valid(base) && (old(Counted(Abs())) ==> (Counted(Abs()) <==> old(HasRoom(Abs(), t))))
    {
      TakeKeeps(Abs(), t, timeout, flag, base);
      if Counted(Abs()) { RetakeIff(Abs(), t, timeout, flag); }
      hide Restorable, Waiting, Coherent, Steady, Counted;
      threads := threads[t := threads[t].(error := EOK)];
      if owner == Some(t) {
        hold := (hold + 1) % HOLD_RANGE;
      } else if value > 0 {
        value := value - 1;
        owner := Some(t);
        original := prio[t];
        hold := (hold + 1) % HOLD_RANGE;
      } else {
        if timeout == 0 {
          threads := threads[t := threads[t].(error := ETIMEOUT)];
          assert threads == old(threads)[t := threads[t]];
          return Returned(ETIMEOUT);
        }
        if prio[t] < prio[owner.value] { prio := prio[owner.value := prio[t]]; }
        wait := Suspend(wait, t, prio, flag);
        threads := threads[t := Thread(EOK, Blocked((), timeout, 0))];
        assert threads == old(threads)[t := threads[t]];
        return Waits;
      }
      o := Returned(EOK);
    }

    /** What rt_mutex_take does when its thread comes back from rt_schedule. */
    method Rerun(t: nat, ghost base: seq<nat>) returns (o: Outcome)
      requires Valid(base) && t < |threads| && threads[t].phase.Ready?
      modifies this`threads
      ensures Valid(base) && (Abs(), o) == MutexSpec.Rerun(old(Abs()), t)
    {
      o := Returned(threads[t].error);
      threads := threads[t := threads[t].(phase := Idle)];
    }

    /** rt_mutex_release. */
    method Release(t: nat, ghost base: seq<nat>) returns (o: Outcome)
      requires Valid(base) && t < |threads| && threads[t].phase.Idle?
      modifies this
      ensures Valid(base) && (Abs(), o) == MutexSpec.Release(old(Abs()), t)
      ensures old(Counted(Abs())) ==> Counted(Abs())
    {
      ReleaseKeeps(Abs(), t, base);
      if owner != Some(t) {
        threads := threads[t := threads[t].(error := ERROR)];
        return Returned(ERROR);
      }
      hold := (hold + HOLD_RANGE - 1) % HOLD_RANGE;
      if hold == 0 {
        if original != prio[t] { prio := prio[t := original]; }
        assert prio == old(prio)[t := old(original)];
        if wait != [] {
          HandOff(old(Abs()), base);
          var head := wait[0];
          owner := Some(head);
          original := prio[head];
          hold := hold + 1;
          var p := threads[head].phase;
          wait := wait[1..];
          threads := threads[head := Thread(threads[head].error, Ready(p.call, p.timeout, p.start))];
        } else {
          value := value + 1;
          owner := None;
          original := NO_PRIORITY;
        }
      }
      o := Returned(EOK);
    }

    /** rt_thread_timeout for a thread waiting here: the owner keeps what it inherited. */
    method Timeout(t: nat, ghost base: seq<nat>)
      requires Valid(base) && t < |threads| && threads[t].phase.Blocked?
      modifies this
      ensures Valid(base) && Abs() == TimedOut(old(Abs()), t)
    {
      TimedOutKeeps(Abs(), t, base);
      var p := threads[t].phase;
      wait := Without(wait, t);
      threads := threads[t := Thread(ETIMEOUT, Ready(p.call, p.timeout, p.start))];
      assert threads == ResumeWith(old(threads), t, ETIMEOUT);
    }
  }
}
