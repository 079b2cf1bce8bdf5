/** rt-thread/src/ipc.c, mailboxes: what holds over every interleaving. */
module MailboxTheorems {
  import opened Common
  import opened IpcWait
  import opened Lists
  import opened MailboxSpec

  /** One atomic region: a call's first, a resumed thread's next, a thread timer, or
      a reset. */
  datatype Action = SendCall(t: nat, value: int, timeout: int) | RecvCall(t: nat, timeout: int)
                  | Runs(t: nat) | Timer(t: nat) | ResetCall

  datatype Event = In(value: int) | Out(value: int) | Clear

  /** Calls from a thread that is not inside one already, or that cannot block. */
  predicate Enabled(s: State, a: Action, e: Env) {
    && |e.prio| == |s.ts|
    && match a
       case SendCall(t, _, timeout) => t < |s.ts| && (timeout == 0 || s.ts[t].phase.Idle?)
       case RecvCall(t, timeout) => t < |s.ts| && (timeout == 0 || s.ts[t].phase.Idle?)
       case Runs(t) => t < |s.ts| && s.ts[t].phase.Ready?
       case Timer(t) => t < |s.ts| && s.ts[t].phase.Blocked? && s.ts[t].phase.timeout > 0
       case ResetCall => true
  }

  function Step(s: State, a: Action, e: Env): (State, Outcome)
    requires Shaped(s, e) && Enabled(s, a, e)
  {
    match a
    case SendCall(t, value, timeout) => SendEnter(s, t, value, timeout, e)
    case RecvCall(t, timeout) => RecvEnter(s, t, timeout, e)
    case Runs(t) => Rerun(s, t, e)
    case Timer(t) => (TimedOut(s, t), Waits)
    case ResetCall => (Reset(s), Returned(EOK))
  }

  // ---------------------------------------------------------------- what the callers asked for

  /** The call a thread made last that may wait, as its caller made it. */
  datatype Asked = Nothing | ToSend(value: int) | ToReceive

  /** The record of these calls: it follows the actions alone. */
  function Noted(book: seq<Asked>, a: Action): seq<Asked> {
    match a
    case SendCall(t, value, timeout) => if timeout != 0 && t < |book| then book[t := ToSend(value)] else book
    case RecvCall(t, timeout) => if timeout != 0 && t < |book| then book[t := ToReceive] else book
    case _ => book
  }

  predicate Remembers(th: Thread<Call>, asked: Asked) {
    !th.phase.Idle? ==>
      match asked
      case Nothing => false
      case ToSend(value) => th.phase.call == Send(value)
      case ToReceive => th.phase.call == Recv
  }

  /** Every thread inside a call remembers just what its caller asked for. */
  ghost predicate Booked(s: State, book: seq<Asked>) {
    |book| == |s.ts| && forall t {:trigger s.ts[t]} :: 0 <= t < |s.ts| ==> Remembers(s.ts[t], book[t])
  }

  /** The step is a send, or the next turn of one. */
  predicate Sends(book: seq<Asked>, a: Action) { a.SendCall? || (a.Runs? && a.t < |book| && book[a.t].ToSend?) }

  function SentValue(book: seq<Asked>, a: Action): int
    requires Sends(book, a)
  {
    if a.SendCall? then a.value else book[a.t].value
  }

  /** What the callers see of a step: a send that returned RT_EOK, a receive that
      delivered a mail, a reset. */
  function Seen(book: seq<Asked>, a: Action, o: Outcome): seq<Event> {
    if a.ResetCall? then [Clear]
    else if o.Received? then [Out(o.value)]
    else if Sends(book, a) && o == Returned(EOK) then [In(SentValue(book, a))]
    else []
  }

  ghost function Run(s: State, steps: seq<(Action, Env)>, book: seq<Asked>): (r: (State, seq<Event>))
    requires Inv(s)
    ensures Inv(r.0)
    decreases |steps|
  {
    if steps == [] then (s, [])
    else if !Enabled(s, steps[0].0, steps[0].1) then Run(s, steps[1..], book)
    else
      var (s1, o) := Step(s, steps[0].0, steps[0].1);
      StepKeeps(s, steps[0].0, steps[0].1);
      var (s2, events) := Run(s1, steps[1..], Noted(book, steps[0].0));
      (s2, Seen(book, steps[0].0, o) + events)
  }

  /** A step keeps the record right: nobody forgets what was asked. */
  lemma StepRemembers(s: State, a: Action, e: Env, book: seq<Asked>)
    requires Inv(s) && Enabled(s, a, e) && Booked(s, book)
    ensures Booked(Step(s, a, e).0, Noted(book, a))
  {
    hide Enqueue, Without, Remembers;
    var s1, b1 := Step(s, a, e).0, Noted(book, a);
    forall t | 0 <= t < |s1.ts|
      ensures Remembers(s1.ts[t], b1[t])
    {
      assert Remembers(s.ts[t], book[t]);
      StepThread(s, a, e, t);
      KeptCall(s.ts[t], s1.ts[t], book[t]);
      if !(a.SendCall? || a.RecvCall?) || a.t != t || a.timeout == 0 {
        assert b1[t] == book[t];
      } else {
        FreshCall(s1.ts[t], b1[t]);
      }
    }
  }

  /** A thread in a call before and after a step is in the same call. */
  lemma StepThread(s: State, a: Action, e: Env, t: nat)
    requires Inv(s) && Enabled(s, a, e) && t < |s.ts|
    ensures var s1 := Step(s, a, e).0;
      && |s1.ts| == |s.ts|
      && if (a.SendCall? || a.RecvCall?) && a.t == t && a.timeout != 0
         then s1.ts[t].phase.Idle? || s1.ts[t].phase.call == if a.SendCall? then Send(a.value) else Recv
         else s1.ts[t].phase.Idle? || (!s.ts[t].phase.Idle? && s1.ts[t].phase.call == s.ts[t].phase.call)
  {
    hide Enqueue, Without, Contents, Promised, Ring;
    if a.ResetCall? { ResetThreads(s, t); }
  }

  lemma KeptCall(th: Thread<Call>, th1: Thread<Call>, asked: Asked)
    requires Remembers(th, asked)
    ensures th1.phase.Idle? || (!th.phase.Idle? && th1.phase.call == th.phase.call) ==> Remembers(th1, asked)
  {
  }

  lemma FreshCall(th: Thread<Call>, asked: Asked)
    ensures asked.ToSend? && (th.phase.Idle? || th.phase.call == Send(asked.value)) ==> Remembers(th, asked)
    ensures asked.ToReceive? && (th.phase.Idle? || th.phase.call == Recv) ==> Remembers(th, asked)
  {
  }

  lemma StepKeeps(s: State, a: Action, e: Env)
    requires Inv(s) && Enabled(s, a, e)
    ensures Inv(Step(s, a, e).0)
  {
    hide Deposit, Withdraw, Reset, TimedOut, TrySend, TryRecv;
    match a
    case SendCall(t, value, timeout) =>
      if !(s.entry == |s.pool| && timeout == 0) { TrySendKeeps(s, t, value, timeout, e); }
    case RecvCall(t, timeout) => if !(s.entry == 0 && timeout == 0) { TryRecvKeeps(s, t, timeout, e); }
    case Runs(t) => RerunKeeps(s, t, e);
    case Timer(t) => TimedOutKeeps(s, t);
    case ResetCall => ResetKeeps(s);
  }

  lemma InitialKeeps(pool: seq<int>, threads: nat)
    requires |pool| < 0x1_0000
    ensures Inv(Initial(|pool|, pool, threads)) && Contents(Initial(|pool|, pool, threads)) == []
  {
  }

  /** No lost wake-up, after any run: once no resumed thread is left to run, a
      receiver waits only on an empty mailbox and a sender only on a full one. */
  lemma NoLostWakeUp(s: State, steps: seq<(Action, Env)>, book: seq<Asked>)
    requires Inv(s)
    ensures var r := Run(s, steps, book).0;
      (forall t {:trigger r.ts[t]} :: 0 <= t < |r.ts| ==> !r.ts[t].phase.Ready?)
      ==> (r.recvWait != [] ==> Contents(r) == []) && (r.sendWait != [] ==> |Contents(r)| == |r.pool|)
  {
    var r := Run(s, steps, book).0;
    if forall t {:trigger r.ts[t]} :: 0 <= t < |r.ts| ==> !r.ts[t].phase.Ready? {
      assert Woken(r.ts, Receiving) == {} && Woken(r.ts, Sending) == {};
    }
  }

  // ---------------------------------------------------------------- the bounded queue behind the calls

  /** A queue of at most cap mails that agrees with the events, if there is one. */
  function Replay(q: seq<int>, events: seq<Event>, cap: nat): Option<seq<int>>
    decreases |events|
  {
    if events == [] then Some(q)
    else match events[0]
      case In(v) => if |q| < cap then Replay(q + [v], events[1..], cap) else None
      case Out(v) => if q != [] && q[0] == v then Replay(q[1..], events[1..], cap) else None
      case Clear => Replay([], events[1..], cap)
  }

  lemma StepRefines(s: State, a: Action, e: Env, book: seq<Asked>)
    requires Inv(s) && Enabled(s, a, e) && Booked(s, book)
    ensures Inv(Step(s, a, e).0) && |Step(s, a, e).0.pool| == |s.pool|
    ensures var (s1, o) := Step(s, a, e);
            Replay(Contents(s), Seen(book, a, o), |s.pool|) == Some(Contents(s1))
  {
    StepKeeps(s, a, e);
    var (s1, o) := Step(s, a, e);
    hide Inv, Replay, Deposit, Withdraw;
    if Sends(book, a) && o == Returned(EOK) {
      SendRefines(s, a, e, book);
    } else if o.Received? {
      RecvRefines(s, a, e);
    } else if a.ResetCall? {
      ReplayOne(Contents(s), Clear, |s.pool|);
    } else {
      IdleRefines(s, a, e, book);
    }
  }

  lemma ReplayOne(q: seq<int>, ev: Event, cap: nat)
    ensures ev.In? && |q| < cap ==> Replay(q, [ev], cap) == Some(q + [ev.value])
    ensures ev.Out? && q != [] && q[0] == ev.value ==> Replay(q, [ev], cap) == Some(q[1..])
    ensures ev.Clear? ==> Replay(q, [ev], cap) == Some([])
    ensures Replay(q, [], cap) == Some(q)
  {
  }

  lemma SendRefines(s: State, a: Action, e: Env, book: seq<Asked>)
    requires Inv(s) && Enabled(s, a, e) && Booked(s, book) && Sends(book, a) && Step(s, a, e).1 == Returned(EOK)
    ensures var (s1, o) := Step(s, a, e);
            Ring(s1) && |s1.pool| == |s.pool|
                && Replay(Contents(s), [In(SentValue(book, a))], |s.pool|) == Some(Contents(s1))
  {
    hide Replay;
    var s0, v := if a.Runs? then s.(ts := s.ts[a.t := s.ts[a.t].(phase := Idle)]) else s, SentValue(book, a);
    if a.Runs? { assert Remembers(s.ts[a.t], book[a.t]); }
    assert s.entry < |s.pool| && Step(s, a, e).0 == Deposit(s0, v);
    DepositContents(s0, v);
    assert Contents(s0) == Contents(s);
    ReplayOne(Contents(s), In(v), |s.pool|);
  }

  lemma RecvRefines(s: State, a: Action, e: Env)
    requires Inv(s) && Enabled(s, a, e) && Step(s, a, e).1.Received?
    ensures var (s1, o) := Step(s, a, e);
            Ring(s1) && |s1.pool| == |s.pool| && Replay(Contents(s), [Out(o.value)], |s.pool|) == Some(Contents(s1))
  {
    hide Replay;
    var s0 := if a.Runs? then s.(ts := s.ts[a.t := s.ts[a.t].(phase := Idle)]) else s;
    assert s.entry > 0 && Step(s, a, e) == (Withdraw(s0), Received(s.pool[s.outOff]));
    WithdrawContents(s0);
    assert Contents(s0) == Contents(s);
    ReplayOne(Contents(s), Out(s.pool[s.outOff]), |s.pool|);
  }

  /** Nothing else touches the ring. */
  lemma IdleRefines(s: State, a: Action, e: Env, book: seq<Asked>)
    requires Inv(s) && Enabled(s, a, e) && Booked(s, book) && !a.ResetCall? && !Step(s, a, e).1.Received?
    requires !(Sends(book, a) && Step(s, a, e).1 == Returned(EOK))
    ensures var s1 := Step(s, a, e).0;
            Ring(s1) && |s1.pool| == |s.pool| && Contents(s1) == Contents(s)
                && Replay(Contents(s), [], |s.pool|) == Some(Contents(s1))
  {
    var s1 := Step(s, a, e).0;
    if a.Runs? { assert Remembers(s.ts[a.t], book[a.t]); }
    assert s1.pool == s.pool && s1.inOff == s.inOff && s1.outOff == s.outOff && s1.entry == s.entry;
  }

  lemma {:induction false} ReplayJoins(q: seq<int>, a: seq<Event>, b: seq<Event>, cap: nat)
    requires Replay(q, a, cap).Some?
    ensures Replay(q, a + b, cap) == Replay(Replay(q, a, cap).value, b, cap)
    decreases |a|
  {
    if a == [] {
      assert a + b == b;
    } else {
      assert (a + b)[1..] == a[1..] + b;
      match a[0]
      case In(v) => ReplayJoins(q + [v], a[1..], b, cap);
      case Out(v) => ReplayJoins(q[1..], a[1..], b, cap);
      case Clear => ReplayJoins([], a[1..], b, cap);
    }
  }

  /** Every interleaving refines one bounded FIFO queue: what the calls return is a
      history of that queue, and the ring holds what the queue holds. A send that had to
      wait puts in the value its caller passed. */
  lemma {:induction false} RunsRefineQueue(s: State, steps: seq<(Action, Env)>, book: seq<Asked>)
    requires Inv(s) && Booked(s, book)
    ensures var (r, events) := Run(s, steps, book);
            |r.pool| == |s.pool| && Replay(Contents(s), events, |s.pool|) == Some(Contents(r))
    decreases |steps|
  {
    hide Booked;
    if steps != [] {
      var (a, e) := steps[0];
      if Enabled(s, a, e) {
        var (s1, o) := Step(s, a, e);
        StepRefines(s, a, e, book);
        StepRemembers(s, a, e, book);
        RunsRefineQueue(s1, steps[1..], Noted(book, a));
        ReplayJoins(Contents(s), Seen(book, a, o), Run(s1, steps[1..], Noted(book, a)).1, |s.pool|);
      } else {
        RunsRefineQueue(s, steps[1..], book);
      }
    }
  }

  /** A new mailbox, and nobody has asked for anything. */
  lemma NothingAsked(pool: seq<int>, threads: nat)
    ensures Booked(Initial(|pool|, pool, threads), seq(threads, _ => Nothing))
  {
  }

  /** How long the caller is still willing to wait. */
  function Patience(s: State, a: Action, e: Env): int
    requires Enabled(s, a, e) && (a.SendCall? || a.RecvCall? || a.Runs?)
  {
    if a.Runs? then var p := s.ts[a.t].phase; Remaining(p.timeout, p.start, e.now) else a.timeout
  }

  /** The verdict of a call depends on the queue and the caller's patience alone; a
      thread whose wait ended in an error returns just that error. */
  lemma Verdicts(s: State, a: Action, e: Env, book: seq<Asked>)
    requires Inv(s) && Enabled(s, a, e) && Booked(s, book) && (a.SendCall? || a.RecvCall? || a.Runs?)
    ensures var o := Step(s, a, e).1;
      if a.Runs? && s.ts[a.t].error != EOK
          then o == Returned(s.ts[a.t].error) && Contents(Step(s, a, e).0) == Contents(s)
      else if Sends(book, a) then
        if |Contents(s)| < |s.pool| then o == Returned(EOK) else if Patience(s, a, e) == 0 then o == Returned(EFULL)
            else o == Waits
      else
        if Contents(s) != [] then o == Received(Contents(s)[0])
            else if Patience(s, a, e) == 0 then o == Returned(ETIMEOUT) else o == Waits
  {
    if a.Runs? {
      assert Remembers(s.ts[a.t], book[a.t]);
      if s.ts[a.t].error != EOK { ErrorKeeps(s, a.t, e); }
    }
  }

  lemma ErrorKeeps(s: State, t: nat, e: Env)
    requires Inv(s) && Enabled(s, Runs(t), e) && s.ts[t].error != EOK
    ensures Ring(Step(s, Runs(t), e).0) && Contents(Step(s, Runs(t), e).0) == Contents(s)
  {
  }

  // ---------------------------------------------------------------- who waits, and who is woken

  /** The threads once the caller runs: a resumed one is in no call until it waits again. */
  function Entered(s: State, a: Action): seq<Thread<Call>> {
    if a.Runs? && a.t < |s.ts| then s.ts[a.t := s.ts[a.t].(phase := Idle)] else s.ts
  }

  /** A call that waits joins the wait list of its side, and remembers its value, the
      timeout that is left of it, and the tick it counts from; nothing else changes. */
  lemma WaitsAsAsked(s: State, a: Action, e: Env, book: seq<Asked>)
    requires Inv(s) && Enabled(s, a, e) && Booked(s, book) && (a.SendCall? || a.RecvCall? || a.Runs?)
    requires Step(s, a, e).1 == Waits
    ensures var (s1, left) := (Step(s, a, e).0, Patience(s, a, e));
      && FallsAsleep(s.ts, s1.ts, a.t, if Sends(book, a) then Send(SentValue(book, a)) else Recv, left,
                     if left > 0 then e.now else 0)
      && Ring(s1) && Contents(s1) == Contents(s)
      && (if Sends(book, a) then Joins(s.sendWait, s1.sendWait, a.t, e.prio, e.flag) else s1.sendWait == s.sendWait)
      && (if Sends(book, a) then s1.recvWait == s.recvWait else Joins(s.recvWait, s1.recvWait, a.t, e.prio, e.flag))
  {
    hide Enqueue, Joins;
    if a.Runs? { assert Remembers(s.ts[a.t], book[a.t]); }
    EnqueueJoins(s.sendWait, a.t, e.prio, e.flag);
    EnqueueJoins(s.recvWait, a.t, e.prio, e.flag);
  }

  /** A send that stores a mail wakes the receiver at the head of the list, and nobody
      else; a receive that takes one wakes the sender at the head. */
  lemma WakesTheHead(s: State, a: Action, e: Env, book: seq<Asked>)
    requires Inv(s) && Enabled(s, a, e) && Booked(s, book)
    ensures var (s1, o) := Step(s, a, e);
      && (Sends(book, a) && o == Returned(EOK) ==>
            && s1.sendWait == s.sendWait
            && if s.recvWait == [] then s1.recvWait == [] && s1.ts == Entered(s, a)
               else s1.recvWait == s.recvWait[1..] && WokeUp(Entered(s, a), s1.ts, s.recvWait[0], EOK))
      && (o.Received? ==>
            && s1.recvWait == s.recvWait
            && if s.sendWait == [] then s1.sendWait == [] && s1.ts == Entered(s, a)
               else s1.sendWait == s.sendWait[1..] && WokeUp(Entered(s, a), s1.ts, s.sendWait[0], EOK))
  {
    hide Enqueue, Contents;
    if a.Runs? { assert Remembers(s.ts[a.t], book[a.t]); }
    if s.recvWait != [] { assert s.recvWait[0] in s.recvWait; }
    if s.sendWait != [] { assert s.sendWait[0] in s.sendWait; }
  }

  /** A call that is refused, or comes back with an error, leaves everybody else as they were. */
  lemma RefusalIsLocal(s: State, a: Action, e: Env)
    requires Inv(s) && Enabled(s, a, e) && (a.SendCall? || a.RecvCall? || a.Runs?)
    requires var o := Step(s, a, e).1; o.Returned? && o.code != EOK
    ensures var s1 := Step(s, a, e).0;
      && OnlyThread(s.ts, s1.ts, a.t) && s1.ts[a.t].phase == Entered(s, a)[a.t].phase
      && (!a.Runs? ==> s1.ts == s.ts)
      && (a.Runs? ==>
            s1.ts[a.t].error == if s.ts[a.t].error != EOK then s.ts[a.t].error
                                else if Step(s, a, e).1.code == EFULL then EOK else ETIMEOUT)
      && s1.recvWait == s.recvWait && s1.sendWait == s.sendWait && Ring(s1) && Contents(s1) == Contents(s)
  {
  }

  /** A timeout takes its thread off the list it waits on and gives it -RT_ETIMEOUT. */
  lemma TimesOut(s: State, t: nat, e: Env)
    requires Inv(s) && Enabled(s, Timer(t), e)
    ensures var s1 := Step(s, Timer(t), e).0;
      && WokeUp(s.ts, s1.ts, t, ETIMEOUT) && Ring(s1) && Contents(s1) == Contents(s)
      && (if t in s.recvWait then Leaves(s.recvWait, s1.recvWait, t) else s1.recvWait == s.recvWait)
      && (if t in s.sendWait then Leaves(s.sendWait, s1.sendWait, t) else s1.sendWait == s.sendWait)
  {
    hide Leaves;
    if t in s.recvWait { WithoutLeaves(s.recvWait, t); } else { NoneWithout(s.recvWait, t); }
    if t in s.sendWait { WithoutLeaves(s.sendWait, t); } else { NoneWithout(s.sendWait, t); }
  }

  function Ins(events: seq<Event>): seq<int> {
    if events == [] then [] else (if events[0].In? then [events[0].value] else []) + Ins(events[1..])
  }

  function Outs(events: seq<Event>): seq<int> {
    if events == [] then [] else (if events[0].Out? then [events[0].value] else []) + Outs(events[1..])
  }

  lemma {:induction false} ReplayConserves(q: seq<int>, events: seq<Event>, cap: nat)
    requires Replay(q, events, cap).Some? && Clear !in events
    ensures q + Ins(events) == Outs(events) + Replay(q, events, cap).value
    decreases |events|
  {
    if events != [] {
      assert events[0] in events;
      match events[0]
      case In(v) =>
        ReplayConserves(q + [v], events[1..], cap);
        assert q + Ins(events) == q + [v] + Ins(events[1..]);
      case Out(v) =>
        ReplayConserves(q[1..], events[1..], cap);
        assert q == [v] + q[1..];
        assert q + Ins(events) == [v] + (q[1..] + Ins(events[1..]));
      case Clear => assert false;
    }
  }

  /** Between resets no mail is lost, invented, duplicated or reordered. */
  lemma MailIsConserved(s: State, steps: seq<(Action, Env)>, book: seq<Asked>)
    requires Inv(s) && Booked(s, book)
    ensures var (r, events) := Run(s, steps, book);
            Clear !in events ==> Contents(s) + Ins(events) == Outs(events) + Contents(r)
  {
    RunsRefineQueue(s, steps, book);
    var (r, events) := Run(s, steps, book);
    if Clear !in events { ReplayConserves(Contents(s), events, |s.pool|); }
  }
}
