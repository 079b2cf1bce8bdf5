/** rt-thread/src/ipc.c, semaphores: the atomic steps, and that every token is accounted
    for over every interleaving. */
module SemaphoreSpec {
  import opened Common
  import opened IpcWait
  import opened Lists

  type Call = ()

  const VALUE_RANGE: nat := 0x1_0000   // value is a rt_uint16_t

  datatype State = State(value: nat, wait: seq<nat>, ts: seq<Thread<Call>>)

  datatype Env = Env(prio: seq<nat>, flag: Flag)

  datatype Outcome = Returned(code: Code) | Waits

  predicate Shaped(s: State, e: Env) { InRange(s.wait, |s.ts|) && |e.prio| == |s.ts| }

  /** rt_sem_take up to its return or rt_schedule. */
  function TakeEnter(s: State, t: nat, timeout: int, e: Env): (State, Outcome)
    requires Shaped(s, e) && t < |s.ts|
  {
    if s.value > 0 then (s.(value := s.value - 1), Returned(EOK))
    else if timeout == 0 then (s, Returned(ETIMEOUT))
    else (s.(wait := Enqueue(s.wait, t, e.prio, e.flag), ts := s.ts[t := Thread(EOK, Blocked((), timeout, 0))]), Waits)
  }

  /** A resumed thread runs on behind its rt_schedule call. */
  function Rerun(s: State, t: nat): (State, Outcome)
    requires t < |s.ts|
  {
    (s.(ts := s.ts[t := s.ts[t].(phase := Idle)]), Returned(s.ts[t].error))
  }

  /** rt_sem_release: the token goes to the first waiter, or into the 16-bit value. */
  function Release(s: State): State {
    if s.wait == [] then s.(value := (s.value + 1) % VALUE_RANGE)
    else s.(wait := s.wait[1..], ts := Resume(s.ts, s.wait[0]))
  }

  function TimedOut(s: State, t: nat): State {
    s.(wait := Without(s.wait, t), ts := ResumeWith(s.ts, t, ETIMEOUT))
  }

  /** rt_sem_control with RT_IPC_CMD_RESET. */
  function Reset(s: State, value: nat): State {
    State(value % VALUE_RANGE, [], ResumeAll(s.ts, s.wait))
  }

  // ---------------------------------------------------------------- the invariant

  /** Nobody waits while there is a token; the list holds just the blocked threads. */
  ghost predicate Inv(s: State) {
    && s.value < VALUE_RANGE && (s.wait != [] ==> s.value == 0)
    && NoDup(s.wait) && InRange(s.wait, |s.ts|)
    && forall t {:trigger s.ts[t]} :: 0 <= t < |s.ts| ==>
         (t in s.wait <==> s.ts[t].phase.Blocked?) && (s.ts[t].phase.Blocked? ==> s.ts[t].error == EOK)
  }

  /** Tokens in the semaphore, and on their way to a thread that was handed one and has
      not run since. */
  ghost function Tokens(s: State): nat { s.value + |Woken(s.ts, AnyCall)| }

  datatype Action = TakeCall(t: nat, timeout: int) | ReleaseCall | Runs(t: nat) | Timer(t: nat) | ResetCall(value: nat)

  /** A take that does not wait may come from an interrupt, whatever thread it hits. */
  predicate Enabled(s: State, a: Action, e: Env) {
    && |e.prio| == |s.ts|
    && match a
       case TakeCall(t, timeout) => t < |s.ts| && (timeout == 0 || s.ts[t].phase.Idle?)
       case ReleaseCall => true
       case Runs(t) => t < |s.ts| && s.ts[t].phase.Ready?
       case Timer(t) => t < |s.ts| && s.ts[t].phase.Blocked? && s.ts[t].phase.timeout > 0
       case ResetCall(_) => true
  }

  function Step(s: State, a: Action, e: Env): (State, Outcome)
    requires Shaped(s, e) && Enabled(s, a, e)
  {
    match a
    case TakeCall(t, timeout) => TakeEnter(s, t, timeout, e)
    case ReleaseCall => (Release(s), Returned(EOK))
    case Runs(t) => Rerun(s, t)
    case Timer(t) => (TimedOut(s, t), Waits)
    case ResetCall(value) => (Reset(s, value), Returned(EOK))
  }

  /** Tokens that come in with a step, and that leave: with a take that returns RT_EOK, or
      thrown away by a reset. */
  function Put(a: Action): nat {
    match a
    case ReleaseCall => 1
    case ResetCall(value) => value % VALUE_RANGE
    case _ => 0
  }

  function Got(s: State, a: Action, o: Outcome): nat {
    match a
    case TakeCall(_, _) => if o == Returned(EOK) then 1 else 0
    case Runs(_) => if o == Returned(EOK) then 1 else 0
    case ResetCall(_) => s.value
    case _ => 0
  }

  /** A release whose token fits. */
  predicate Room(s: State, a: Action) { a.ReleaseCall? ==> s.wait != [] || s.value < VALUE_RANGE - 1 }

  /** A release that does not fit starts over from 0: every token there is gone, and so is
      the new one. */
  function Lost(s: State, a: Action): nat { if Room(s, a) then 0 else VALUE_RANGE }

  // ---------------------------------------------------------------- steps

  lemma ReleaseStep(s: State)
    requires Inv(s)
    ensures Inv(Release(s))
    ensures Tokens(s) + 1 == Tokens(Release(s)) + Lost(s, ReleaseCall)
  {
    if s.wait != [] {
      HeadGone(s.wait);
      var t := s.wait[0];
      assert t in s.wait;
      WokenCount(s.ts, t, Resume(s.ts, t)[t], AnyCall);
    }
  }

  lemma TakeStep(s: State, t: nat, timeout: int, e: Env)
    requires Inv(s) && Shaped(s, e) && t < |s.ts| && (timeout == 0 || s.ts[t].phase.Idle?)
    ensures var (s1, o) := TakeEnter(s, t, timeout, e);
      Inv(s1) && Tokens(s1) + (if o == Returned(EOK) then 1 else 0) == Tokens(s)
  {
    if s.value == 0 && timeout != 0 {
      var s1 := TakeEnter(s, t, timeout, e).0;
      EnqueueMembers(s.wait, t, e.prio, e.flag);
      WokenCount(s.ts, t, s1.ts[t], AnyCall);
    }
  }

  lemma RerunStep(s: State, t: nat)
    requires Inv(s) && t < |s.ts| && s.ts[t].phase.Ready?
    ensures var (s1, o) := Rerun(s, t);
      Inv(s1) && Tokens(s1) + (if o == Returned(EOK) then 1 else 0) == Tokens(s)
  {
    WokenCount(s.ts, t, Rerun(s, t).0.ts[t], AnyCall);
  }

  lemma TimerStep(s: State, t: nat)
    requires Inv(s) && t < |s.ts| && s.ts[t].phase.Blocked?
    ensures Inv(TimedOut(s, t)) && Tokens(TimedOut(s, t)) == Tokens(s)
  {
    var ts1 := ResumeWith(s.ts, t, ETIMEOUT);
    WithoutMembers(s.wait, t);
    AllInRange(Without(s.wait, t), s.wait, |s.ts|);
    WokenCount(s.ts, t, ts1[t], AnyCall);
    assert ts1 == s.ts[t := ts1[t]];
  }

  lemma ResetStep(s: State, value: nat)
    requires Inv(s)
    ensures Inv(Reset(s, value)) && Tokens(Reset(s, value)) + s.value == Tokens(s) + value % VALUE_RANGE
    ensures forall t {:trigger s.ts[t]} ::
        0 <= t < |s.ts| && s.ts[t].phase.Blocked? ==>
        Reset(s, value).ts[t].phase.Ready? && Reset(s, value).ts[t].error == ERROR
  {
    var r := Reset(s, value);
    forall t | 0 <= t < |s.ts|
      ensures r.ts[t] == if t in s.wait
          then Thread(ERROR, Ready(s.ts[t].phase.call, s.ts[t].phase.timeout, s.ts[t].phase.start)) else s.ts[t]
    {
      ResumeAllAt(s.ts, s.wait, t);
    }
    assert Woken(r.ts, AnyCall) == Woken(s.ts, AnyCall);
  }

  /** Every step keeps the invariant; tokens in are tokens out or still there, except
      exactly for a release with nobody waiting and the value at its maximum, which loses
      2^16 of them. */
  lemma StepAccounts(s: State, a: Action, e: Env)
    requires Inv(s) && Enabled(s, a, e)
    ensures var (s1, o) := Step(s, a, e);
      && Inv(s1) && Tokens(s) + Put(a) == Tokens(s1) + Got(s, a, o) + Lost(s, a)
      && (Tokens(s) + Put(a) == Tokens(s1) + Got(s, a, o) <==> Room(s, a))
  {
    hide Inv, Tokens, TakeEnter, Release, TimedOut, Reset, Rerun;
    match a
    case TakeCall(t, timeout) => TakeShaped(s, e); TakeStep(s, t, timeout, e);
    case ReleaseCall => ReleaseStep(s);
    case Runs(t) => RerunStep(s, t);
    case Timer(t) => TimerStep(s, t);
    case ResetCall(value) => ResetStep(s, value);
  }

  lemma TakeShaped(s: State, e: Env)
    requires Inv(s) && |e.prio| == |s.ts|
    ensures Shaped(s, e)
  {
  }

  // ---------------------------------------------------------------- runs

  /** The state reached, tokens put in, got out, and lost by an overflow; steps that are
      not possible do not happen. */
  ghost function Run(s: State, steps: seq<(Action, Env)>): (r: (State, nat, nat, nat))
    requires Inv(s)
    decreases |steps|
  {
    if steps == [] then (s, 0, 0, 0)
    else if !Enabled(s, steps[0].0, steps[0].1) then Run(s, steps[1..])
    else
      TakeShaped(s, steps[0].1);
      StepAccounts(s, steps[0].0, steps[0].1);
      var (s1, o) := Step(s, steps[0].0, steps[0].1);
      var (s2, puts, gots, lost) := Run(s1, steps[1..]);
      (s2, puts + Put(steps[0].0), gots + Got(s, steps[0].0, o), lost + Lost(s, steps[0].0))
  }

  /** Over every interleaving of takes, releases, timeouts and resets no token is made
      up, none is lost but by an overflowing release, and nobody waits while one is left. */
  lemma {:induction false} TokensAreConserved(s: State, steps: seq<(Action, Env)>)
    requires Inv(s)
    ensures var (r, puts, gots, lost) := Run(s, steps);
      Inv(r) && Tokens(s) + puts == Tokens(r) + gots + lost && (r.wait != [] ==> r.value == 0)
    decreases |steps|
  {
    if steps != [] {
      var (a, e) := steps[0];
      if Enabled(s, a, e) {
        StepAccounts(s, a, e);
        TakeShaped(s, e);
        TokensAreConserved(Step(s, a, e).0, steps[1..]);
      } else {
        TokensAreConserved(s, steps[1..]);
      }
    }
  }

  function Initial(value: nat, threads: nat): State { State(value, [], seq(threads, _ => Thread(EOK, Idle))) }

  lemma InitialKeeps(value: nat, threads: nat)
    requires value < VALUE_RANGE
    ensures Inv(Initial(value, threads)) && Tokens(Initial(value, threads)) == value
  {
    assert Woken(Initial(value, threads).ts, AnyCall) == {};
  }
}
