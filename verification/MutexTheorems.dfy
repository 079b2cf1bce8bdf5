/** rt-thread/src/ipc.c, mutexes: what holds over every interleaving. */
module MutexTheorems {
  import opened Common
  import opened IpcWait
  import opened Lists
  import opened MutexSpec

  datatype Action = TakeCall(t: nat, timeout: int) | ReleaseCall(t: nat) | Runs(t: nat) | Timer(t: nat)

  predicate Enabled(s: State, a: Action) {
    && a.t < |s.ts|
    && match a
       case TakeCall(t, _) => s.ts[t].phase.Idle?
       case ReleaseCall(t) => s.ts[t].phase.Idle?
       case Runs(t) => s.ts[t].phase.Ready?
       case Timer(t) => s.ts[t].phase.Blocked? && s.ts[t].phase.timeout > 0
  }

  function Step(s: State, a: Action, flag: Flag): (State, Outcome)
    requires Shaped(s) && Enabled(s, a)
  {
    match a
    case TakeCall(t, timeout) => TakeEnter(s, t, timeout, flag)
    case ReleaseCall(t) => Release(s, t)
    case Runs(t) => Rerun(s, t)
    case Timer(t) => (TimedOut(s, t), Waits)
  }

  lemma StepKeeps(s: State, a: Action, flag: Flag, base: seq<nat>)
    requires Steady(s, base) && Enabled(s, a)
    ensures Steady(Step(s, a, flag).0, base)
  {
    match a
    case TakeCall(t, timeout) => TakeKeeps(s, t, timeout, flag, base);
    case ReleaseCall(t) => ReleaseKeeps(s, t, base);
    case Runs(t) =>
    case Timer(t) => TimedOutKeeps(s, t, base);
  }

  /** One more take by the owner at a hold count of 255. */
  predicate Overflows(s: State, a: Action) { a.TakeCall? && !HasRoom(s, a.t) }

  /** Such a take is the one step after which the counter is wrong. */
  lemma StepCountsIff(s: State, a: Action, flag: Flag, base: seq<nat>)
    requires Inv(s, base) && Enabled(s, a)
    ensures Inv(Step(s, a, flag).0, base) <==> !Overflows(s, a)
  {
    StepKeeps(s, a, flag, base);
    match a
    case TakeCall(t, timeout) => RetakeIff(s, t, timeout, flag);
    case _ =>
  }

  // ---------------------------------------------------------------- ownership

  /** What a step means for the lock: got is true when t becomes the owner once more. */
  datatype Event = Event(t: nat, got: bool)

  function Seen(s: State, a: Action, o: Outcome): seq<Event> {
    match a
    case TakeCall(t, _) => if o == Returned(EOK) then [Event(t, true)] else []
    case ReleaseCall(t) =>
      if o != Returned(EOK) then []
      else if s.hold == 1 && s.wait != [] then [Event(t, false), Event(s.wait[0], true)]
      else [Event(t, false)]
    case _ => []
  }

  /** A recursive lock: who has it, and how often. */
  datatype Lock = Lock(owner: Option<nat>, depth: nat)

  function After(l: Lock, ev: Event): Option<Lock> {
    if ev.got then
      if l.owner == None then Some(Lock(Some(ev.t), 1))
      else if l.owner == Some(ev.t) then Some(l.(depth := l.depth + 1))
      else None
    else if l.owner == Some(ev.t) && l.depth > 0 then
      Some(if l.depth == 1 then Lock(None, 0) else l.(depth := l.depth - 1))
    else None
  }

  function Replay(l: Lock, events: seq<Event>): Option<Lock>
    decreases |events|
  {
    if events == [] then Some(l)
    else match After(l, events[0])
      case Some(l1) => Replay(l1, events[1..])
      case None => None
  }

  function View(s: State): Lock { Lock(s.owner, s.hold) }

  lemma {:induction false} ReplayJoins(l: Lock, a: seq<Event>, b: seq<Event>)
    requires Replay(l, a).Some?
    ensures Replay(l, a + b) == Replay(Replay(l, a).value, b)
    decreases |a|
  {
    if a == [] {
      assert a + b == b;
    } else {
      assert (a + b)[1..] == a[1..] + b;
      ReplayJoins(After(l, a[0]).value, a[1..], b);
    }
  }

  lemma ReplayOne(l: Lock, ev: Event)
    ensures Replay(l, [ev]) == After(l, ev)
  {
    assert [ev][1..] == [];
  }

  lemma HoldArithmetic(hold: nat)
    ensures hold < HOLD_RANGE - 1 ==> (hold + 1) % HOLD_RANGE == hold + 1
    ensures 0 < hold < HOLD_RANGE ==> (hold + HOLD_RANGE - 1) % HOLD_RANGE == hold - 1
  {
  }

  lemma StepRefines(s: State, a: Action, flag: Flag, base: seq<nat>)
    requires Inv(s, base) && Enabled(s, a) && !Overflows(s, a)
    ensures var (s1, o) := Step(s, a, flag); Replay(View(s), Seen(s, a, o)) == Some(View(s1))
  {
    var (s1, o) := Step(s, a, flag);
    var events := Seen(s, a, o);
    HoldArithmetic(s.hold);
    if |events| == 1 {
      ReplayOne(View(s), events[0]);
    } else if |events| == 2 {
      ReplayOne(View(s), events[0]);
      ReplayOne(Lock(None, 0), events[1]);
      ReplayJoins(View(s), [events[0]], [events[1]]);
      assert events == [events[0]] + [events[1]];
    }
  }

  ghost function Run(s: State, steps: seq<Action>, flag: Flag, base: seq<nat>): (State, seq<Event>)
    requires Steady(s, base)
    decreases |steps|
  {
    if steps == [] then (s, [])
    else if !Enabled(s, steps[0]) then Run(s, steps[1..], flag, base)
    else
      StepKeeps(s, steps[0], flag, base);
      var (s1, o) := Step(s, steps[0], flag);
      var (s2, events) := Run(s1, steps[1..], flag, base);
      (s2, Seen(s, steps[0], o) + events)
  }

  /** No step of the run is a take that overflows the counter. */
  ghost predicate NoOverflow(s: State, steps: seq<Action>, flag: Flag, base: seq<nat>)
    requires Steady(s, base)
    decreases |steps|
  {
    if steps == [] then true
    else if !Enabled(s, steps[0]) then NoOverflow(s, steps[1..], flag, base)
    else
      StepKeeps(s, steps[0], flag, base);
      !Overflows(s, steps[0]) && NoOverflow(Step(s, steps[0], flag).0, steps[1..], flag, base)
  }

  /** The invariant holds at every point of the run. */
  ghost predicate Sound(s: State, steps: seq<Action>, flag: Flag, base: seq<nat>)
    requires Steady(s, base)
    decreases |steps|
  {
    Inv(s, base) &&
    if steps == [] then true
    else if !Enabled(s, steps[0]) then Sound(s, steps[1..], flag, base)
    else
      StepKeeps(s, steps[0], flag, base);
      Sound(Step(s, steps[0], flag).0, steps[1..], flag, base)
  }

  /** Mutual exclusion, over every interleaving, FIFO or PRIO: value and owner agree,
      threads that do not own the mutex run at their own priority, and the owner's is
      remembered. The hold count is right at every point if and only if no take
      overflows it, and then the successful takes, hand-offs and releases are a history
      of one recursive lock, whose state is owner and hold. */
  lemma {:induction false} RunsAreALock(s: State, steps: seq<Action>, flag: Flag, base: seq<nat>)
    requires Inv(s, base)
    ensures var (r, events) := Run(s, steps, flag, base);
      && Steady(r, base) && (Sound(s, steps, flag, base) <==> NoOverflow(s, steps, flag, base))
      && (NoOverflow(s, steps, flag, base) ==> Inv(r, base) && Replay(View(s), events) == Some(View(r)))
    decreases |steps|
  {
    hide Coherent, Waiting, Restorable, Counted, View, Seen, Step, Enabled, Overflows;
    if steps != [] {
      if Enabled(s, steps[0]) {
        var (s1, o) := Step(s, steps[0], flag);
        StepKeeps(s, steps[0], flag, base);
        StepCountsIff(s, steps[0], flag, base);
        RunsStaySteady(s1, steps[1..], flag, base);
        if Overflows(s, steps[0]) {
          NotSound(s1, steps[1..], flag, base);
        } else {
          StepRefines(s, steps[0], flag, base);
          RunsAreALock(s1, steps[1..], flag, base);
          ReplayJoins(View(s), Seen(s, steps[0], o), Run(s1, steps[1..], flag, base).1);
        }
      } else {
        RunsAreALock(s, steps[1..], flag, base);
      }
    }
  }

  lemma NotSound(s: State, steps: seq<Action>, flag: Flag, base: seq<nat>)
    requires Steady(s, base) && !Inv(s, base)
    ensures !Sound(s, steps, flag, base)
  {
  }

  lemma {:induction false} RunsStaySteady(s: State, steps: seq<Action>, flag: Flag, base: seq<nat>)
    requires Steady(s, base)
    ensures Steady(Run(s, steps, flag, base).0, base)
    decreases |steps|
  {
    hide Coherent, Waiting, Restorable, Seen, Step, Enabled;
    if steps != [] {
      if Enabled(s, steps[0]) {
        StepKeeps(s, steps[0], flag, base);
        RunsStaySteady(Step(s, steps[0], flag).0, steps[1..], flag, base);
      } else {
        RunsStaySteady(s, steps[1..], flag, base);
      }
    }
  }

  /** rt_mutex_take returns RT_EOK only to the owner, immediately or after a wait, and
      ownership leaves a thread only by its own last release. */
  lemma OwnershipMoves(s: State, a: Action, flag: Flag, base: seq<nat>)
    requires Steady(s, base) && Enabled(s, a)
    ensures var (s1, o) := Step(s, a, flag);
      && ((a.TakeCall? || a.Runs?) && o == Returned(EOK) ==> s1.owner == Some(a.t))
      && (s.owner.Some? && s1.owner != s.owner ==> a == ReleaseCall(s.owner.value) && s.hold == 1)
      && (a.ReleaseCall? ==> (o == Returned(EOK) <==> s.owner == Some(a.t)))
  {
  }

  // ---------------------------------------------------------------- priority inheritance

  lemma StepFair(s: State, a: Action, base: seq<nat>)
    requires Steady(s, base) && Fair(s) && Enabled(s, a)
    ensures Fair(Step(s, a, PRIO).0)
  {
    match a
    case TakeCall(t, timeout) => TakeFair(s, t, timeout, base);
    case ReleaseCall(t) => ReleaseFair(s, t, base);
    case Runs(t) =>
    case Timer(t) => TimedOutFair(s, t, base);
  }

  /** A PRIO mutex, over every interleaving: the wait list stays sorted, and no waiter
      is ever more urgent than the owner. */
  lemma {:induction false} RunsStayFair(s: State, steps: seq<Action>, base: seq<nat>)
    requires Steady(s, base) && Fair(s)
    ensures Fair(Run(s, steps, PRIO, base).0)
    decreases |steps|
  {
    hide Fair, Restorable, Waiting, Seen;
    if steps != [] {
      if Enabled(s, steps[0]) {
        StepKeeps(s, steps[0], PRIO, base);
        StepFair(s, steps[0], base);
        RunsStayFair(Step(s, steps[0], PRIO).0, steps[1..], base);
      } else {
        RunsStayFair(s, steps[1..], base);
      }
    }
  }

  /** Every step leaves the owner at a priority it deserves, but for the timeout of the
      waiter it inherited from. */
  lemma StepDeservedIff(s: State, a: Action, base: seq<nat>)
    requires Steady(s, base) && Deserved(s, base) && Enabled(s, a)
    ensures var s1 := Step(s, a, PRIO).0;
      Shaped(s1) && |s1.prio| == |base| && (Deserved(s1, base) <==> !Strands(s, a, base))
  {
    match a
    case TakeCall(t, timeout) => TakeDeserved(s, t, timeout, PRIO, base);
    case ReleaseCall(t) => ReleaseDeserved(s, t, base);
    case Runs(t) => assert Step(s, a, PRIO).0.wait == s.wait && Step(s, a, PRIO).0.prio == s.prio;
    case Timer(t) => TimedOutIff(s, t, base);
  }

  /** A waiter times out whose priority the owner runs at, and which neither the owner nor
      another waiter has. */
  ghost predicate Strands(s: State, a: Action, base: seq<nat>)
    requires Shaped(s) && |base| == |s.prio|
  {
    a.Timer? && !Backed(s, a.t, base)
  }

  /** No timeout of the run strands the owner. */
  ghost predicate NoneStrands(s: State, steps: seq<Action>, base: seq<nat>)
    requires Steady(s, base)
    decreases |steps|
  {
    if steps == [] then true
    else if !Enabled(s, steps[0]) then NoneStrands(s, steps[1..], base)
    else
      StepKeeps(s, steps[0], PRIO, base);
      !Strands(s, steps[0], base) && NoneStrands(Step(s, steps[0], PRIO).0, steps[1..], base)
  }

  /** The owner runs at exactly the most urgent of its own priority and its waiters'. */
  ghost predicate AtBest(s: State, base: seq<nat>)
    requires Shaped(s) && |base| == |s.prio|
  {
    s.owner.Some? ==>
      var p, own := s.prio[s.owner.value], base[s.owner.value];
      && p <= own && (forall i {:trigger s.wait[i]} :: 0 <= i < |s.wait| ==> p <= s.prio[s.wait[i]])
      && (p == own || exists i {:trigger s.wait[i]} :: 0 <= i < |s.wait| && p == s.prio[s.wait[i]])
  }

  lemma AtBestIff(s: State, base: seq<nat>)
    requires Steady(s, base) && Fair(s)
    ensures AtBest(s, base) <==> Deserved(s, base)
  {
  }

  /** So it is at every point of the run. */
  ghost predicate AlwaysAtBest(s: State, steps: seq<Action>, base: seq<nat>)
    requires Steady(s, base)
    decreases |steps|
  {
    AtBest(s, base) &&
    if steps == [] then true
    else if !Enabled(s, steps[0]) then AlwaysAtBest(s, steps[1..], base)
    else
      StepKeeps(s, steps[0], PRIO, base);
      AlwaysAtBest(Step(s, steps[0], PRIO).0, steps[1..], base)
  }

  /** At every point of a run the owner of a PRIO mutex runs at exactly the most urgent of
      its own priority and its waiters', if and only if no timeout of the run strands it. */
  lemma {:induction false} OwnerRunsAtTheBest(s: State, steps: seq<Action>, base: seq<nat>)
    requires Steady(s, base) && Fair(s) && Deserved(s, base)
    ensures AlwaysAtBest(s, steps, base) <==> NoneStrands(s, steps, base)
    decreases |steps|
  {
    hide Coherent, Waiting, Fair, Deserved, AtBest, Step, Enabled, Strands;
    AtBestIff(s, base);
    if steps != [] {
      if Enabled(s, steps[0]) {
        var s1 := Step(s, steps[0], PRIO).0;
        StepKeeps(s, steps[0], PRIO, base);
        StepFair(s, steps[0], base);
        StepDeservedIff(s, steps[0], base);
        AtBestIff(s1, base);
        if Strands(s, steps[0], base) {
          NotAtBest(s1, steps[1..], base);
        } else {
          OwnerRunsAtTheBest(s1, steps[1..], base);
        }
      } else {
        OwnerRunsAtTheBest(s, steps[1..], base);
      }
    }
  }

  lemma NotAtBest(s: State, steps: seq<Action>, base: seq<nat>)
    requires Steady(s, base) && !AtBest(s, base)
    ensures !AlwaysAtBest(s, steps, base)
  {
  }

  function Initial(prio: seq<nat>): State {
    State(1, None, NO_PRIORITY, 0, [], seq(|prio|, _ => Thread(EOK, Idle)), prio)
  }

  lemma InitialKeeps(prio: seq<nat>)
    ensures Inv(Initial(prio), prio) && Fair(Initial(prio)) && Deserved(Initial(prio), prio)
  {
  }

  /** Thread 0 has the mutex and the next k of threads 1 and 2 wait. */
  function OneWaits(k: nat): State {
    var idle, waits := Thread(EOK, Idle), Thread(EOK, Blocked((), -1, 0));
    State(0, Some(0), 10, 1, if k == 0 then [] else if k == 1 then [1] else [1, 2],
          [idle, if k > 0 then waits else idle, if k > 1 then waits else idle], [if k > 1 then 5 else 10, 20, 5])
  }

  function Inverted(): State {
    State(0, Some(1), 20, 1, [2], [Thread(EOK, Idle), Thread(EOK, Ready((), -1, 0)), Thread(EOK, Blocked((), -1, 0))],
        [10, 20, 5])
  }

  lemma Inversion1()
    ensures var s, a := Initial([10, 20, 5]), TakeCall(0, -1);
        Shaped(s) && Enabled(s, a) && Step(s, a, FIFO).0 == OneWaits(0)
  {
    assert Initial([10, 20, 5]).ts == [Thread(EOK, Idle), Thread(EOK, Idle), Thread(EOK, Idle)];
  }

  lemma Inversion2()
    ensures var s, a := OneWaits(0), TakeCall(1, -1); Shaped(s) && Enabled(s, a) && Step(s, a, FIFO).0 == OneWaits(1)
  {
    assert Step(OneWaits(0), TakeCall(1, -1), FIFO).0.ts == OneWaits(1).ts;
  }

  lemma Inversion3()
    ensures var s, a := OneWaits(1), TakeCall(2, -1); Shaped(s) && Enabled(s, a) && Step(s, a, FIFO).0 == OneWaits(2)
  {
    assert Step(OneWaits(1), TakeCall(2, -1), FIFO).0.ts == OneWaits(2).ts;
  }

  lemma Inversion4()
    ensures var s, a := OneWaits(2), ReleaseCall(0); Shaped(s) && Enabled(s, a) && Step(s, a, FIFO).0 == Inverted()
    ensures Shaped(Inverted()) && !Covers(Inverted())
  {
    assert Step(OneWaits(2), ReleaseCall(0), FIFO).0.ts == Inverted().ts;
    assert Inverted().wait[0] == 2;
  }

  lemma RunsNowhere(s: State, flag: Flag, prio: seq<nat>)
    requires Steady(s, prio)
    ensures Run(s, [], flag, prio).0 == s && Shaped(s)
  {
  }

  /** With FIFO waiting, inheritance is lost on hand-off: thread 1 (priority 20) and
      then thread 2 (priority 5) wait for thread 0; once thread 0 releases, thread 1
      owns the mutex at priority 20 while thread 2 still waits. HandOffIff is the exact
      condition. */
  lemma FifoInverts()
    ensures var prio := [10, 20, 5];
      Inv(Initial(prio), prio) &&
      var s := Run(Initial(prio), [TakeCall(0, -1), TakeCall(1, -1), TakeCall(2, -1), ReleaseCall(0)], FIFO, prio).0;
      Inv(s, prio) && s.owner == Some(1) && s.wait == [2] && s.prio == [10, 20, 5] && !Covers(s)
  {
    var prio := [10, 20, 5];
    var a0, a1, a2, a3 := TakeCall(0, -1), TakeCall(1, -1), TakeCall(2, -1), ReleaseCall(0);
    var steps := [a0, a1, a2, a3];
    assert steps[1..] == [a1, a2, a3] && [a1, a2, a3][1..] == [a2, a3] && [a2, a3][1..] == [a3] && [a3][1..] == [];
    hide Step, Run, Steady, Counted;
    InitialKeeps(prio);
    Inversion1();
    RunsTo(Initial(prio), steps, FIFO, prio, OneWaits(0));
    Inversion2();
    RunsTo(OneWaits(0), [a1, a2, a3], FIFO, prio, OneWaits(1));
    Inversion3();
    RunsTo(OneWaits(1), [a2, a3], FIFO, prio, OneWaits(2));
    Inversion4();
    RunsTo(OneWaits(2), [a3], FIFO, prio, Inverted());
    RunsNowhere(Inverted(), FIFO, prio);
  }

  lemma RunsTo(s: State, steps: seq<Action>, flag: Flag, prio: seq<nat>, s1: State)
    requires Steady(s, prio) && steps != [] && Enabled(s, steps[0]) && s1 == Step(s, steps[0], flag).0
    ensures Steady(s1, prio) && Run(s, steps, flag, prio).0 == Run(s1, steps[1..], flag, prio).0
  {
    StepKeeps(s, steps[0], flag, prio);
  }

  // ---------------------------------------------------------------- a stranded owner

  /** Thread 0, of priority 10, has the mutex and has inherited 5 from thread 1, which
      waits for three ticks, or has stopped to. */
  function Lifted(waits: bool): State {
    State(0, Some(0), 10, 1, if waits then [1] else [],
          [Thread(EOK, Idle),
           if waits then Thread(EOK, Blocked((), 3, 0)) else Thread(ETIMEOUT, Ready((), 3, 0))], [5, 5])
  }

  function Taken(): State { State(0, Some(0), 10, 1, [], [Thread(EOK, Idle), Thread(EOK, Idle)], [10, 5]) }

  lemma Stranding()
    ensures var s, a := Initial([10, 5]), TakeCall(0, -1); Shaped(s) && Enabled(s, a) && Step(s, a, PRIO).0 == Taken()
    ensures var s, a := Taken(), TakeCall(1, 3); Shaped(s) && Enabled(s, a) && Step(s, a, PRIO).0 == Lifted(true)
    ensures var s, a := Lifted(true), Timer(1); Shaped(s) && Enabled(s, a) && Step(s, a, PRIO).0 == Lifted(false)
  {
    assert Initial([10, 5]).ts == [Thread(EOK, Idle), Thread(EOK, Idle)];
    assert Step(Taken(), TakeCall(1, 3), PRIO).0.ts == Lifted(true).ts;
    assert Step(Lifted(true), Timer(1), PRIO).0.ts == Lifted(false).ts;
    assert Without([1], 1) == [];
  }

  /** A timeout strands the owner: thread 0 takes the mutex, thread 1 waits for it and
      gives up, and thread 0 goes on at priority 5 instead of 10 with nobody waiting. */
  lemma TimeoutStrands()
    ensures var prio := [10, 5];
      Inv(Initial(prio), prio) &&
      var s := Run(Initial(prio), [TakeCall(0, -1), TakeCall(1, 3), Timer(1)], PRIO, prio).0;
      Inv(s, prio) && s.owner == Some(0) && s.wait == [] && s.prio == [5, 5] && !Deserved(s, prio)
  {
    var prio := [10, 5];
    var a0, a1, a2 := TakeCall(0, -1), TakeCall(1, 3), Timer(1);
    assert [a0, a1, a2][1..] == [a1, a2] && [a1, a2][1..] == [a2] && [a2][1..] == [];
    hide Step, Run, Steady;
    InitialKeeps(prio);
    Stranding();
    RunsTo(Initial(prio), [a0, a1, a2], PRIO, prio, Taken());
    RunsTo(Taken(), [a1, a2], PRIO, prio, Lifted(true));
    RunsTo(Lifted(true), [a2], PRIO, prio, Lifted(false));
    RunsNowhere(Lifted(false), PRIO, prio);
  }

  // ---------------------------------------------------------------- a counter that wraps

  function Takes(k: nat): seq<Action> { seq(k, _ => TakeCall(0, -1)) }

  /** One thread that has taken the mutex k times. */
  function Held(k: nat): State { State(0, Some(0), 10, k % HOLD_RANGE, [], [Thread(EOK, Idle)], [10]) }

  lemma TakenOnce(k: nat, flag: Flag)
    requires k > 0
    ensures Steady(Held(k), [10]) && Enabled(Held(k), TakeCall(0, -1))
        && Step(Held(k), TakeCall(0, -1), flag).0 == Held(k + 1)
  {
    hide Steady;
    HeldSteady(k);
    OneMore(k);
    assert Step(Held(k), TakeCall(0, -1), flag).0.ts == [Thread(EOK, Idle)];
  }

  lemma HeldSteady(k: nat)
    ensures Steady(Held(k), [10])
  {
  }

  lemma OneMore(k: nat)
    ensures (k % HOLD_RANGE + 1) % HOLD_RANGE == (k + 1) % HOLD_RANGE
  {
  }

  lemma {:induction false} TakesAddUp(k: nat, j: nat, flag: Flag)
    requires k > 0
    ensures Steady(Held(k), [10]) && Run(Held(k), Takes(j), flag, [10]).0 == Held(k + j)
    decreases j
  {
    TakenOnce(k, flag);
    if j > 0 {
      assert Takes(j)[1..] == Takes(j - 1);
      TakesAddUp(k + 1, j - 1, flag);
    }
  }

  /** The owner's 256th take in a row overflows the counter: the mutex is taken, and the
      hold count is 0. */
  lemma CounterWraps(flag: Flag)
    ensures var prio := [10];
      Inv(Initial(prio), prio) &&
      var s, t := Run(Initial(prio), Takes(255), flag, prio).0, Run(Initial(prio), Takes(256), flag, prio).0;
      && Inv(s, prio) && s.hold == 255 && Overflows(s, TakeCall(0, -1))
      && t.owner == Some(0) && t.hold == 0 && !Counted(t)
  {
    InitialKeeps([10]);
    FromTheStart(255, flag);
    FromTheStart(256, flag);
    TakenOnce(255, flag);
  }

  lemma FromTheStart(k: nat, flag: Flag)
    requires k > 0
    ensures Steady(Initial([10]), [10]) && Run(Initial([10]), Takes(k), flag, [10]).0 == Held(k)
  {
    InitialKeeps([10]);
    FirstTake(flag);
    assert Takes(k)[1..] == Takes(k - 1);
    TakesAddUp(1, k - 1, flag);
    RunsTo(Initial([10]), Takes(k), flag, [10], Held(1));
  }

  lemma FirstTake(flag: Flag)
    ensures var s, a := Initial([10]), TakeCall(0, -1); Shaped(s) && Enabled(s, a) && Step(s, a, flag).0 == Held(1)
  {
    assert Initial([10]).ts == [Thread(EOK, Idle)];
  }
}
