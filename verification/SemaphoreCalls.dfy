/** rt-thread/src/ipc.c, semaphores: what each call returns, whom it makes wait, and whom it
    wakes. */
module SemaphoreCalls {
  import opened Common
  import opened IpcWait
  import opened Lists
  import opened SemaphoreSpec

  /** The verdict of rt_sem_take: a token if there is one; otherwise a refusal at once, or
      the wait list. */
  lemma TakeVerdict(s: State, t: nat, timeout: int, e: Env)
    requires Inv(s) && t < |s.ts| == |e.prio| && (timeout == 0 || s.ts[t].phase.Idle?)
    ensures Shaped(s, e)
    ensures var (s1, o) := TakeEnter(s, t, timeout, e);
      if s.value > 0 then o == Returned(EOK) && s1 == s.(value := s.value - 1)
      else if timeout == 0 then o == Returned(ETIMEOUT) && s1 == s
      else
        && o == Waits && s1.value == 0 && FallsAsleep(s.ts, s1.ts, t, (), timeout, 0)
        && Joins(s.wait, s1.wait, t, e.prio, e.flag)
  {
    hide Joins, Enqueue;
    EnqueueJoins(s.wait, t, e.prio, e.flag);
  }

  /** The verdict of rt_sem_release: the first waiter wakes with RT_EOK, and the value stays;
      with nobody waiting the value is one more, or 0 after 65535. */
  lemma ReleaseVerdict(s: State, e: Env)
    requires Inv(s) && |e.prio| == |s.ts|
    ensures var (s1, o) := Step(s, ReleaseCall, e);
      && o == Returned(EOK)
      && if s.wait == [] then
           s1.value == (if s.value == 65535 then 0 else s.value + 1) && s1.wait == [] && s1.ts == s.ts
         else
           s1.value == s.value && s1.wait == s.wait[1..] && WokeUp(s.ts, s1.ts, s.wait[0], EOK)
  {
    if s.wait != [] { assert s.wait[0] in s.wait; }
  }

  /** A resumed thread returns its error, which is RT_EOK if it was handed a token. */
  lemma RerunVerdict(s: State, t: nat)
    requires t < |s.ts| && s.ts[t].phase.Ready?
    ensures var (s1, o) := Rerun(s, t);
      && o == Returned(s.ts[t].error) && OnlyThread(s.ts, s1.ts, t) && s1.ts[t].phase.Idle?
      && s1.value == s.value && s1.wait == s.wait
  {
  }

  /** A timeout takes its thread off the wait list and gives it -RT_ETIMEOUT. */
  lemma TimesOut(s: State, t: nat)
    requires Inv(s) && t < |s.ts| && s.ts[t].phase.Blocked?
    ensures var s1 := TimedOut(s, t);
      WokeUp(s.ts, s1.ts, t, ETIMEOUT) && Leaves(s.wait, s1.wait, t) && s1.value == s.value
  {
    hide Leaves;
    WithoutLeaves(s.wait, t);
  }

  /** A reset sets the value, cut to 16 bits; everybody on the list goes on with -RT_ERROR,
      and nobody else is touched. */
  lemma ResetVerdict(s: State, value: nat, t: nat, e: Env)
    requires Inv(s) && t < |s.ts| == |e.prio|
    ensures var (s1, o) := Step(s, ResetCall(value), e);
      && o == Returned(EOK) && s1.value == value % 65536 && s1.wait == [] && |s1.ts| == |s.ts|
      && if s.ts[t].phase.Blocked? then s1.ts[t].phase.Ready? && s1.ts[t].error == ERROR else s1.ts[t] == s.ts[t]
  {
    ResumeAllAt(s.ts, s.wait, t);
  }
}
