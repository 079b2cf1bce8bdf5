/** rt-thread/src/ipc.c, mutexes: what each call returns, whom it makes wait, and whom it
    wakes. */
module MutexCalls {
  import opened Common
  import opened IpcWait
  import opened Lists
  import opened MutexSpec

  /** At most thread t has a new priority, p. */
  ghost predicate OnlyPriority(s: State, s1: State, t: nat, p: nat) {
    && |s1.prio| == |s.prio| && t < |s.prio| && s1.prio[t] == p
    && forall u {:trigger s1.prio[u]} :: 0 <= u < |s.prio| && u != t ==> s1.prio[u] == s.prio[u]
  }

  /** The verdict of rt_mutex_take. A free mutex is taken, and the taker's priority
      remembered; the owner takes it once more; anybody else is refused at once, or waits,
      and the owner is then at least as urgent as the waiter. */
  lemma TakeVerdict(s: State, t: nat, timeout: int, flag: Flag, base: seq<nat>)
    requires Steady(s, base) && t < |s.ts| && s.ts[t].phase.Idle?
    ensures var (s1, o) := TakeEnter(s, t, timeout, flag);
      && OnlyThread(s.ts, s1.ts, t)
      && if s.owner == None then
           && o == Returned(EOK) && s1.owner == Some(t) && s1.hold == 1 && s1.value == 0 && s1.original == base[t]
           && s1.wait == s.wait && s1.prio == s.prio && s1.ts[t].phase.Idle? && s1.ts[t].error == EOK
         else if s.owner == Some(t) then
           && o == Returned(EOK) && s1.hold == (if s.hold == 255 then 0 else s.hold + 1) && s1.ts[t].phase.Idle?
           && s1.ts[t].error == EOK && s1.(ts := s.ts, hold := s.hold) == s
         else if timeout == 0 then
           o == Returned(ETIMEOUT) && s1.ts[t].phase.Idle? && s1.ts[t].error == ETIMEOUT && s1.(ts := s.ts) == s
         else
           && o == Waits && FallsAsleep(s.ts, s1.ts, t, (), timeout, 0)
           && s1.(ts := s.ts, wait := s.wait, prio := s.prio) == s
           && OnlyPriority(s, s1, s.owner.value, Min(s.prio[s.owner.value], s.prio[t]))
           && InRange(s.wait, |s1.prio|) && Joins(s.wait, s1.wait, t, s1.prio, flag)
  {
    hide Joins, Enqueue;
    if s.hold < HOLD_RANGE - 1 { assert (s.hold + 1) % HOLD_RANGE == s.hold + 1; }
    if s.owner.Some? && s.owner != Some(t) && timeout != 0 {
      EnqueueJoins(s.wait, t, Inherit(s, t), flag);
    }
  }

  /** The verdict of rt_mutex_release. Only the owner may; it gives back one take, and with
      the last one its own priority returns, and the mutex goes to the first waiter, who
      wakes with RT_EOK, or is free. */
  lemma ReleaseVerdict(s: State, t: nat, base: seq<nat>)
    requires Steady(s, base) && t < |s.ts| && s.ts[t].phase.Idle?
    ensures s.wait != [] ==> s.wait[0] < |s.prio| == |base|
    ensures var (s1, o) := Release(s, t);
      if s.owner != Some(t) then
        && o == Returned(ERROR) && OnlyThread(s.ts, s1.ts, t) && s1.ts[t].phase.Idle? && s1.ts[t].error == ERROR
        && s1.(ts := s.ts) == s
      else if s.hold != 1 then
        o == Returned(EOK) && s1.hold == (if s.hold == 0 then 255 else s.hold - 1) && s1.(hold := s.hold) == s
      else
        && o == Returned(EOK) && OnlyPriority(s, s1, t, base[t])
        && if s.wait == [] then
             && s1.owner == None && s1.value == 1 && s1.hold == 0 && s1.original == 255
             && s1.wait == [] && s1.ts == s.ts
           else
             && s1.owner == Some(s.wait[0]) && s1.value == 0 && s1.hold == 1 && s1.original == base[s.wait[0]]
             && s1.wait == s.wait[1..] && WokeUp(s.ts, s1.ts, s.wait[0], EOK)
  {
    if 0 < s.hold { assert (s.hold + HOLD_RANGE - 1) % HOLD_RANGE == s.hold - 1; }
    if s.owner == Some(t) && s.hold == 1 && s.wait != [] { HandOff(s, base); }
    if s.wait != [] { assert s.wait[0] in s.wait; }
  }

  /** A thread that was handed the mutex owns it when it comes back; one whose wait ended in
      an error returns that. */
  lemma RerunVerdict(s: State, t: nat, base: seq<nat>)
    requires Steady(s, base) && t < |s.ts| && s.ts[t].phase.Ready?
    ensures var (s1, o) := Rerun(s, t);
      && o == Returned(s.ts[t].error) && (o == Returned(EOK) ==> s1.owner == Some(t))
      && OnlyThread(s.ts, s1.ts, t) && s1.ts[t].phase.Idle? && s1.(ts := s.ts) == s
  {
  }

  /** A timeout takes its thread off the wait list and gives it -RT_ETIMEOUT; nothing else
      changes, not even the priority the owner had inherited. */
  lemma TimesOut(s: State, t: nat, base: seq<nat>)
    requires Steady(s, base) && t < |s.ts| && s.ts[t].phase.Blocked?
    ensures var s1 := TimedOut(s, t);
      WokeUp(s.ts, s1.ts, t, ETIMEOUT) && Leaves(s.wait, s1.wait, t) && s1.(ts := s.ts, wait := s.wait) == s
  {
    hide Leaves;
    WithoutLeaves(s.wait, t);
  }
}
