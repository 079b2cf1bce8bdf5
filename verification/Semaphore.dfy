/** rt-thread/src/ipc.c, semaphores: the object, one method per atomic region. */
module Semaphore {
  import opened Common
  import opened IpcWait
  import opened Lists
  import opened SemaphoreSpec

  class Sem {
    var value: nat
    var wait: seq<nat>                // parent.suspend_thread
    var threads: seq<Thread<Call>>

    ghost function Abs(): State
      reads this
    {
      State(value, wait, threads)
    }

    ghost predicate Valid()
      reads this
    {
      Inv(Abs())
    }

    /** rt_sem_init; the source asserts that the value fits. */
    constructor (v: nat, n: nat)
      requires v < VALUE_RANGE
      ensures Valid() && Abs() == Initial(v, n)
    {
      value, wait := v, [];
      threads := seq(n, _ => Thread(EOK, Idle));
    }

    /** rt_sem_take up to its return or rt_schedule. */
    method TakeEnter(t: nat, timeout: int, e: Env) returns (o: Outcome)
      requires Valid() && t < |threads| == |e.prio| && (timeout == 0 || threads[t].phase.Idle?)
      modifies this
      ensures Valid() && (Abs(), o) == SemaphoreSpec.TakeEnter(old(Abs()), t, timeout, e)
    {
      TakeStep(Abs(), t, timeout, e);
      if value > 0 {
        value := value - 1;
        return Returned(EOK);
      }
      if timeout == 0 { return Returned(ETIMEOUT); }
      threads := threads[t := threads[t].(error := EOK)];
      wait := Suspend(wait, t, e.prio, e.flag);
      threads := threads[t := Thread(EOK, Blocked((), timeout, 0))];
      assert threads == old(threads)[t := threads[t]];
      o := Waits;
    }

    /** What rt_sem_take does when its thread comes back from rt_schedule. */
    method Rerun(t: nat) returns (o: Outcome)
      requires Valid() && t < |threads| && threads[t].phase.Ready?
      modifies this`threads
      ensures Valid() && (Abs(), o) == SemaphoreSpec.Rerun(old(Abs()), t)
    {
      RerunStep(Abs(), t);
      o := Returned(threads[t].error);
      threads := threads[t := threads[t].(phase := Idle)];
    }

    /** rt_sem_release. */
    method Release()
      requires Valid()
      modifies this
      ensures Valid() && Abs() == SemaphoreSpec.Release(old(Abs()))
    {
      ReleaseStep(Abs());
      if wait != [] {
        var head := wait[0];
        assert head in wait;
        var p := threads[head].phase;
        wait := wait[1..];
        threads := threads[head := Thread(threads[head].error, Ready(p.call, p.timeout, p.start))];
      } else {
        value := (value + 1) % VALUE_RANGE;
      }
    }

    /** rt_thread_timeout for a thread waiting here. */
    method Timeout(t: nat)
      requires Valid() && t < |threads| && threads[t].phase.Blocked?
      modifies this
      ensures Valid() && Abs() == TimedOut(old(Abs()), t)
    {
      TimerStep(Abs(), t);
      var p := threads[t].phase;
      wait := Without(wait, t);
      threads := threads[t := Thread(ETIMEOUT, Ready(p.call, p.timeout, p.start))];
      assert threads == ResumeWith(old(threads), t, ETIMEOUT);
    }

    /** rt_sem_control: reset is the only command. */
    method Control(reset: bool, v: nat) returns (code: Code)
      requires Valid()
      modifies this
      ensures Valid() && Abs() == (if reset then Reset(old(Abs()), v) else old(Abs())) && code == if reset then EOK
          else ERROR
    {
      if !reset { return ERROR; }
      ResetStep(Abs(), v);
      while wait != []
        invariant NoDup(wait) && InRange(wait, |threads|) && |threads| == |old(threads)| && value == old(value)
        invariant forall t {:trigger t in wait} :: t in wait ==> threads[t].phase.Blocked?
        invariant ResumeAll(threads, wait) == ResumeAll(old(threads), old(wait))
        decreases |wait|
      {
        var t := wait[0];
        assert t in wait;
        HeadGone(wait);
        var p := threads[t].phase;
        ghost var before := threads;
        threads := threads[t := Thread(ERROR, Ready(p.call, p.timeout, p.start))];
        assert threads == ResumeWith(before, t, ERROR);
        wait := wait[1..];
      }
      value := v % VALUE_RANGE;
      code := EOK;
    }
  }
}
