/** rt-thread/src/ipc.c, message queues: what holds over every interleaving. */
module MessageQueueTheorems {
  import opened Common
  import opened IpcWait
  import opened Lists
  import opened MessageQueueSpec

  /** t is a thread, or an interrupt handler's context. */
  datatype Action = SendCall(t: nat, bytes: seq<int>, urgent: bool) | FillOne(t: nat) | LinkIn(t: nat)
                  | RecvCall(t: nat, want: nat, timeout: int) | Runs(t: nat) | DrainOne(t: nat) | Give(t: nat)
                  | Timer(t: nat) | ResetCall

  predicate Enabled(s: State, a: Action, e: Env, size: nat) {
    && |e.prio| == |s.ts| == |s.jobs|
    && match a
       case SendCall(t, bytes, _) => t < |s.ts| && s.ts[t].phase.Idle? && s.jobs[t].NoJob? && bytes != []
       case FillOne(t) => MayFill(s, t)
       case LinkIn(t) => MayLink(s, t)
       case RecvCall(t, want, timeout) => t < |s.ts| && s.ts[t].phase.Idle? && s.jobs[t].NoJob? && want > 0
       case Runs(t) => t < |s.ts| && s.ts[t].phase.Ready?
       case DrainOne(t) => MayDrain(s, t, size)
       case Give(t) => MayGive(s, t, size)
       case Timer(t) => t < |s.ts| && s.ts[t].phase.Blocked? && s.ts[t].phase.timeout > 0
       case ResetCall => true
  }

  ghost function Step(s: State, a: Action, e: Env, size: nat): (State, Outcome)
    requires Inv(s, size) && Enabled(s, a, e, size)
  {
    match a
    case SendCall(t, bytes, urgent) => SendEnter(s, t, bytes, urgent, size)
    case FillOne(t) => (FillByte(s, t), Busy)
    case LinkIn(t) => (Link(s, t), Returned(EOK))
    case RecvCall(t, want, timeout) => RecvEnter(s, t, want, timeout, e)
    case Runs(t) => Rerun(s, t, e)
    case DrainOne(t) => (DrainByte(s, t, size), Busy)
    case Give(t) => GiveBack(s, t, size)
    case Timer(t) => (TimedOut(s, t), Waits)
    case ResetCall => (Reset(s), Returned(EOK))
  }

  lemma StepKeeps(s: State, a: Action, e: Env, size: nat)
    requires Inv(s, size) && Enabled(s, a, e, size)
    ensures Inv(Step(s, a, e, size).0, size) && |Step(s, a, e, size).0.data| == |s.data|
  {
    hide Partitioned, Intact, Reset, TimedOut;
    match a
    case SendCall(t, bytes, urgent) => SendEnterKeeps(s, t, bytes, urgent, size);
    case FillOne(t) => FillByteKeeps(s, t, size);
    case LinkIn(t) => LinkKeeps(s, t, size);
    case RecvCall(t, want, timeout) => TryRecvKeeps(s, t, want, timeout, e, size);
    case Runs(t) => RerunKeeps(s, t, e, size);
    case DrainOne(t) => DrainByteKeeps(s, t, size);
    case Give(t) => GiveBackKeeps(s, t, size);
    case Timer(t) => TimedOutKeeps(s, t, size); SameNodes(s, a);
    case ResetCall => ResetKeeps(s, size); SameNodes(s, a);
  }

  // ---------------------------------------------------------------- what the callers asked for

  /** The buffer size each thread gave with its last receive: it follows the actions alone. */
  function Noted(book: seq<nat>, a: Action): seq<nat> {
    if a.RecvCall? && a.t < |book| then book[a.t := a.want] else book
  }

  predicate Remembers(th: Thread<Call>, want: nat) { !th.phase.Idle? ==> th.phase.call == want }

  /** Every thread inside a receive remembers the size its caller gave. */
  ghost predicate Booked(s: State, book: seq<nat>) {
    |book| == |s.ts| && forall t {:trigger s.ts[t]} :: 0 <= t < |s.ts| ==> Remembers(s.ts[t], book[t])
  }

  /** A step keeps the record right. */
  lemma StepRemembers(s: State, a: Action, e: Env, size: nat, book: seq<nat>)
    requires Inv(s, size) && Enabled(s, a, e, size) && Booked(s, book)
    ensures Booked(Step(s, a, e, size).0, Noted(book, a))
  {
    hide Inv, Remembers, Step;
    var s1, b1 := Step(s, a, e, size).0, Noted(book, a);
    StepThreads(s, a, e, size);
    forall t | 0 <= t < |s1.ts|
      ensures Remembers(s1.ts[t], b1[t])
    {
      assert Remembers(s.ts[t], book[t]);
      StepThread(s, a, e, size, t);
      KeptCall(s.ts[t], s1.ts[t], book[t]);
      if a.RecvCall? && a.t == t { KeptCall(s1.ts[t], s1.ts[t], b1[t]); }
    }
  }

  lemma StepThreads(s: State, a: Action, e: Env, size: nat)
    requires Inv(s, size) && Enabled(s, a, e, size)
    ensures |Step(s, a, e, size).0.ts| == |s.ts|
  {
    hide Enqueue, Without, Partitioned, Intact;
  }

  /** A thread in a receive before and after a step is in the same one. */
  lemma StepThread(s: State, a: Action, e: Env, size: nat, t: nat)
    requires Inv(s, size) && Enabled(s, a, e, size) && t < |s.ts| == |Step(s, a, e, size).0.ts|
    ensures var th, th1 := s.ts[t], Step(s, a, e, size).0.ts[t];
      if a.RecvCall? && a.t == t then Remembers(th1, a.want)
      else th1.phase.Idle? || (!th.phase.Idle? && th1.phase.call == th.phase.call)
  {
    hide Enqueue, Without, Partitioned, Intact, Promised;
    if a.ResetCall? { ResetThread(s, t); }
  }

  lemma ResetThread(s: State, t: nat)
    requires Waiting(s) && t < |s.ts|
    ensures var th, r := s.ts[t], Reset(s).ts[t];
            r == if th.phase.Blocked? then Thread(ERROR, Ready(th.phase.call, th.phase.timeout, th.phase.start)) else th
  {
    ResumeAllAt(s.ts, s.wait, t);
  }

  lemma KeptCall(th: Thread<Call>, th1: Thread<Call>, want: nat)
    ensures Remembers(th, want) && (th1.phase.Idle? || (!th.phase.Idle? && th1.phase.call == th.phase.call)) ==>
      Remembers(th1, want)
  {
  }

  lemma SameNodes(s: State, a: Action)
    ensures a.Timer? ==> TimedOut(s, a.t).data == s.data
    ensures Reset(s).data == s.data
  {
  }

  // ---------------------------------------------------------------- the deque behind the calls

  /** What a caller has in hand: a message it is sending, or one it has taken. */
  datatype Hand = Empty | ToSend(bytes: seq<int>, urgent: bool) | Taken(bytes: seq<int>, want: nat)

  datatype Deque = Deque(q: seq<seq<int>>, hands: seq<Hand>)

  datatype Event = Begin(t: nat, bytes: seq<int>, urgent: bool) | Linked(t: nat) | Took(t: nat, want: nat)
                 | Gave(t: nat, buffer: seq<int>) | Clear

  function HandOf(j: Job): Hand {
    match j
    case NoJob => Empty
    case Filling(item, urgent, _) => ToSend(item.bytes, urgent)
    case Draining(item, want, _) => Taken(item.bytes, want)
  }

  function Messages(queue: seq<Item>): seq<seq<int>> { seq(|queue|, i requires 0 <= i < |queue| => queue[i].bytes) }

  function Hands(jobs: seq<Job>): seq<Hand> { seq(|jobs|, t requires 0 <= t < |jobs| => HandOf(jobs[t])) }

  function View(s: State): Deque { Deque(Messages(s.queue), Hands(s.jobs)) }

  function Used(hands: seq<Hand>): nat {
    if hands == [] then 0 else Used(hands[..|hands| - 1]) + (if hands[|hands| - 1].Empty? then 0 else 1)
  }

  /** A buffer of `want` bytes that received a message: as much of the message as
      fits, in a length that never exceeds the message size of the queue. */
  predicate Delivered(buffer: seq<int>, bytes: seq<int>, want: nat, size: nat) {
    |buffer| == Min(want, size) && buffer[..Min(|bytes|, |buffer|)] == bytes[..Min(|bytes|, |buffer|)]
  }

  /** A double-ended queue with n places, hands included. */
  function After(d: Deque, ev: Event, size: nat, n: nat): Option<Deque> {
    match ev
    case Begin(t, bytes, urgent) =>
      if t < |d.hands| && d.hands[t].Empty? && |d.q| + Used(d.hands) < n && |bytes| <= size
      then Some(d.(hands := d.hands[t := ToSend(bytes, urgent)])) else None
    case Linked(t) =>
      if t < |d.hands| && d.hands[t].ToSend?
      then
        var q1 := if d.hands[t].urgent then [d.hands[t].bytes] + d.q else d.q + [d.hands[t].bytes];
        Some(Deque(q1, d.hands[t := Empty]))
      else None
    case Took(t, want) =>
      if t < |d.hands| && d.hands[t].Empty? && d.q != []
      then Some(Deque(d.q[1..], d.hands[t := Taken(d.q[0], want)])) else None
    case Gave(t, buffer) =>
      if t < |d.hands| && d.hands[t].Taken? && Delivered(buffer, d.hands[t].bytes, d.hands[t].want, size)
      then Some(d.(hands := d.hands[t := Empty])) else None
    case Clear => Some(d.(q := []))
  }

  function Replay(d: Deque, events: seq<Event>, size: nat, n: nat): Option<Deque>
    decreases |events|
  {
    if events == [] then Some(d)
    else match After(d, events[0], size, n)
      case Some(d1) => Replay(d1, events[1..], size, n)
      case None => None
  }

  /** What the callers see of a step. */
  function Seen(book: seq<nat>, a: Action, o: Outcome): seq<Event> {
    match a
    case SendCall(t, bytes, urgent) => if o.Busy? then [Begin(t, bytes, urgent)] else []
    case LinkIn(t) => [Linked(t)]
    case RecvCall(t, want, _) => if o.Busy? then [Took(t, want)] else []
    case Runs(t) => if o.Busy? && t < |book| then [Took(t, book[t])] else []
    case Give(t) => if o.Received? then [Gave(t, o.buffer)] else []
    case ResetCall => [Clear]
    case _ => []
  }

  lemma {:induction false} UsedIsHeld(jobs: seq<Job>)
    ensures Used(Hands(jobs)) == |Held(jobs)|
  {
    if jobs != [] {
      var pre, last := jobs[..|jobs| - 1], jobs[|jobs| - 1];
      UsedIsHeld(pre);
      assert Hands(jobs)[..|jobs| - 1] == Hands(pre) && Hands(jobs)[|jobs| - 1] == HandOf(last);
      assert |Held(pre) + InHand(last)| == |Held(pre)| + |InHand(last)|;
      assert |InHand(last)| == if last.NoJob? then 0 else 1;
    } else {
      assert Hands(jobs) == [];
    }
  }

  lemma HandsUpdate(jobs: seq<Job>, t: nat, j: Job)
    requires t < |jobs|
    ensures Hands(jobs[t := j]) == Hands(jobs)[t := HandOf(j)]
  {
  }

  lemma BeginRefines(s: State, a: Action, e: Env, size: nat)
    requires Inv(s, size) && Enabled(s, a, e, size) && a.SendCall? && Step(s, a, e, size).1.Busy?
    ensures After(View(s), Begin(a.t, a.bytes, a.urgent), size, |s.data|) == Some(View(Step(s, a, e, size).0))
  {
    CountsAddUp(s);
    UsedIsHeld(s.jobs);
    HandsUpdate(s.jobs, a.t, Filling(Item(s.free[0], a.bytes), a.urgent, 0));
  }

  lemma LinkRefines(s: State, t: nat, size: nat)
    requires Inv(s, size) && MayLink(s, t)
    ensures After(View(s), Linked(t), size, |s.data|) == Some(View(Link(s, t)))
  {
    HandsUpdate(s.jobs, t, NoJob);
    assert Messages(Link(s, t).queue)
        == if s.jobs[t].urgent then [s.jobs[t].item.bytes] + Messages(s.queue)
            else Messages(s.queue) + [s.jobs[t].item.bytes];
  }

  lemma TookRefines(s: State, t: nat, want: nat, size: nat)
    requires s.queue != [] && t < |s.jobs| && s.jobs[t].NoJob?
    ensures After(View(s), Took(t, want), size, |s.data|)
         == Some(View(s.(queue := s.queue[1..], jobs := s.jobs[t := Draining(s.queue[0], want, [])])))
  {
    HandsUpdate(s.jobs, t, Draining(s.queue[0], want, []));
    assert Messages(s.queue[1..]) == Messages(s.queue)[1..];
  }

  lemma GaveRefines(s: State, t: nat, size: nat)
    requires Inv(s, size) && MayGive(s, t, size)
    ensures After(View(s), Gave(t, s.jobs[t].got), size, |s.data|) == Some(View(GiveBack(s, t, size).0))
  {
    HandsUpdate(s.jobs, t, NoJob);
    var j := s.jobs[t];
    assert GoodJob(s.data, j, size);
    var d, m := s.data[j.item.node], Min(|j.item.bytes|, |j.got|);
    assert d[..|j.item.bytes|][..m] == d[..m] && d[..|j.got|][..m] == d[..m];
  }

  lemma CopyKeepsView(s: State, t: nat, size: nat)
    ensures MayFill(s, t) ==> View(FillByte(s, t)) == View(s)
    ensures MayDrain(s, t, size) ==> View(DrainByte(s, t, size)) == View(s)
  {
    if MayFill(s, t) {
      HandsUpdate(s.jobs, t, FillByte(s, t).jobs[t]);
      assert Hands(s.jobs)[t := HandOf(s.jobs[t])] == Hands(s.jobs);
    }
    if MayDrain(s, t, size) {
      HandsUpdate(s.jobs, t, DrainByte(s, t, size).jobs[t]);
      assert Hands(s.jobs)[t := HandOf(s.jobs[t])] == Hands(s.jobs);
    }
  }

  lemma StepRefines(s: State, a: Action, e: Env, size: nat, book: seq<nat>)
    requires Inv(s, size) && Enabled(s, a, e, size) && Booked(s, book)
    ensures var (s1, o) := Step(s, a, e, size);
            Replay(View(s), Seen(book, a, o), size, |s.data|) == Some(View(s1))
  {
    hide Partitioned, Intact, View, After;
    var (s1, o) := Step(s, a, e, size);
    match a
    case SendCall(_, _, _) => if o.Busy? { BeginRefines(s, a, e, size); }
    case FillOne(t) => CopyKeepsView(s, t, size);
    case LinkIn(t) => LinkRefines(s, t, size);
    case RecvCall(t, want, _) => RecvRefines(s, s, t, want, e, a.timeout, size);
    case Runs(t) =>
      var p := s.ts[t].phase;
      assert Remembers(s.ts[t], book[t]);
      var s0 := s.(ts := s.ts[t := s.ts[t].(phase := Idle)]);
      SameView(s, s0);
      RecvRefines(s, s0, t, p.call, e, Remaining(p.timeout, p.start, e.now), size);
    case DrainOne(t) => CopyKeepsView(s, t, size);
    case Give(t) => GaveRefines(s, t, size);
    case Timer(t) => SameView(s, s1);
    case ResetCall => ResetView(s, size);
  }

  lemma SameView(s: State, s1: State)
    requires s.queue == s1.queue && s.jobs == s1.jobs
    ensures View(s) == View(s1)
  {
  }

  lemma ResetView(s: State, size: nat)
    ensures After(View(s), Clear, size, |s.data|) == Some(View(Reset(s)))
  {
    assert Messages([]) == [];
  }

  lemma RecvRefines(s: State, s0: State, t: nat, want: nat, e: Env, timeout: int, size: nat)
    requires s0 == s.(ts := s0.ts) && InRange(s.wait, |s.ts|) && |s0.ts| == |s.ts| == |s.jobs| == |e.prio|
        && s.entry == |s.queue|
    requires t < |s.ts| && s.jobs[t].NoJob?
    ensures var (s1, o) := TryRecv(s0, t, want, timeout, e);
            if o.Busy? then After(View(s), Took(t, want), size, |s.data|) == Some(View(s1)) else View(s1) == View(s)
  {
    if s.queue != [] { TookRefines(s0, t, want, size); }
    SameView(s, s0);
  }

  ghost function Run(s: State, steps: seq<(Action, Env)>, size: nat, book: seq<nat>): (r: (State, seq<Event>))
    requires Inv(s, size)
    ensures Inv(r.0, size)
    decreases |steps|
  {
    if steps == [] then (s, [])
    else if !Enabled(s, steps[0].0, steps[0].1, size) then Run(s, steps[1..], size, book)
    else
      StepKeeps(s, steps[0].0, steps[0].1, size);
      var (s1, o) := Step(s, steps[0].0, steps[0].1, size);
      var (s2, events) := Run(s1, steps[1..], size, Noted(book, steps[0].0));
      (s2, Seen(book, steps[0].0, o) + events)
  }

  lemma {:induction false} ReplayJoins(d: Deque, a: seq<Event>, b: seq<Event>, size: nat, n: nat)
    requires Replay(d, a, size, n).Some?
    ensures Replay(d, a + b, size, n) == Replay(Replay(d, a, size, n).value, b, size, n)
    decreases |a|
  {
    hide After;
    if a == [] {
      assert a + b == b;
    } else {
      assert (a + b)[1..] == a[1..] + b;
      ReplayJoins(After(d, a[0], size, n).value, a[1..], b, size, n);
    }
  }

  /** Every interleaving, byte by byte, refines one double-ended queue: sends enter at
      the back and urgent sends in front, receivers take from the front, the buffer
      handed back holds the message taken, as much as its caller gave room for, and the
      pool bounds what is in flight. */
  lemma {:induction false} RunsRefineDeque(s: State, steps: seq<(Action, Env)>, size: nat, book: seq<nat>)
    requires Inv(s, size) && Booked(s, book)
    ensures var (r, events) := Run(s, steps, size, book);
            |r.data| == |s.data| && Replay(View(s), events, size, |s.data|) == Some(View(r))
    decreases |steps|
  {
    hide Inv, Enabled, Seen, View, Booked;
    if steps != [] {
      var (a, e) := steps[0];
      if Enabled(s, a, e, size) {
        var (s1, o) := Step(s, a, e, size);
        StepKeeps(s, a, e, size);
        StepRefines(s, a, e, size, book);
        StepRemembers(s, a, e, size, book);
        RunsRefineDeque(s1, steps[1..], size, Noted(book, a));
        ReplayJoins(View(s), Seen(book, a, o), Run(s1, steps[1..], size, Noted(book, a)).1, size, |s.data|);
      } else {
        RunsRefineDeque(s, steps[1..], size, book);
      }
    }
  }

  /** In every reachable state each node is queued, free or in one hand; the counts
      add up, and the entry field is the length of the queue. */
  lemma NodesAreConserved(s: State, steps: seq<(Action, Env)>, size: nat, book: seq<nat>)
    requires Inv(s, size)
    ensures var r := Run(s, steps, size, book).0;
      && r.entry == |r.queue| && |r.queue| + |r.free| + |Held(r.jobs)| == |r.data|
      && forall i {:trigger Held(r.jobs)[i]} :: 0 <= i < |r.data| ==>
           multiset(Nodes(r.queue))[i] + multiset(r.free)[i] + Held(r.jobs)[i] == 1
  {
    hide Run;
    var r := Run(s, steps, size, book).0;
    CountsAddUp(r);
    forall i | 0 <= i < |r.data|
      ensures multiset(Nodes(r.queue))[i] + multiset(r.free)[i] + Held(r.jobs)[i] == 1
    {
      AllNodesOnce(|r.data|, i);
      assert (multiset(Nodes(r.queue)) + multiset(r.free) + Held(r.jobs))[i] == 1;
    }
  }

  /** No lost wake-up, after any run: once no resumed receiver is left to run, a
      receiver waits only on an empty queue. */
  lemma NoLostWakeUp(s: State, steps: seq<(Action, Env)>, size: nat, book: seq<nat>)
    requires Inv(s, size)
    ensures var r := Run(s, steps, size, book).0;
            (forall t {:trigger r.ts[t]} :: 0 <= t < |r.ts| ==> !r.ts[t].phase.Ready?) && r.wait != [] ==> r.queue == []
  {
    hide Run;
    var r := Run(s, steps, size, book).0;
    if forall t {:trigger r.ts[t]} :: 0 <= t < |r.ts| ==> !r.ts[t].phase.Ready? {
      assert Woken(r.ts, AnyCall) == {};
    }
  }

  /** A send is refused exactly when the message is too long or every node is queued
      or in somebody's hands: the queue itself may then be anything but full. */
  lemma SendVerdict(s: State, a: Action, e: Env, size: nat)
    requires Inv(s, size) && Enabled(s, a, e, size) && a.SendCall?
    ensures var o := Step(s, a, e, size).1;
      && (o == Returned(ERROR) <==> |a.bytes| > size)
      && (o == Returned(EFULL) <==> |a.bytes| <= size && |s.queue| + Used(Hands(s.jobs)) == |s.data|)
      && (o.Busy? <==> |a.bytes| <= size && |s.queue| + Used(Hands(s.jobs)) < |s.data|)
  {
    CountsAddUp(s);
    UsedIsHeld(s.jobs);
  }

  // ---------------------------------------------------------------- copying comes to an end

  /** The steps left to a sender with n bytes to copy. */
  function SendRest(t: nat, n: nat, e: Env): seq<(Action, Env)> {
    if n == 0 then [(LinkIn(t), e)] else [(FillOne(t), e)] + SendRest(t, n - 1, e)
  }

  /** As many copying steps as bytes are left, and one to link: the message is in the queue,
      behind the others or in front of them, and the sender has nothing in hand. */
  lemma {:induction false} SendCompletes(s: State, t: nat, e: Env, size: nat, book: seq<nat>)
    requires Inv(s, size) && |e.prio| == |s.ts| && t < |s.jobs| && s.jobs[t].Filling?
    requires s.jobs[t].k <= |s.jobs[t].item.bytes|
    ensures var j := s.jobs[t];
      var r := Run(s, SendRest(t, |j.item.bytes| - j.k, e), size, book).0;
      && r.queue == (if j.urgent then [j.item] + s.queue else s.queue + [j.item])
      && r.jobs == s.jobs[t := NoJob] && r.free == s.free
    decreases |s.jobs[t].item.bytes| - s.jobs[t].k
  {
    hide Inv, Run;
    var j := s.jobs[t];
    var n := |j.item.bytes| - j.k;
    var steps := SendRest(t, n, e);
    InHandOf(s, t, size);
    if n == 0 {
      LastStep(s, LinkIn(t), e, size, book);
    } else {
      FirstStep(s, FillOne(t), e, steps[1..], size, book);
      var s1 := Step(s, FillOne(t), e, size).0;
      assert steps == [(FillOne(t), e)] + steps[1..] && steps[1..] == SendRest(t, n - 1, e);
      assert s1.jobs[t] == j.(k := j.k + 1) && s1.jobs[t := NoJob] == s.jobs[t := NoJob];
      SendCompletes(s1, t, e, size, Noted(book, FillOne(t)));
    }
  }

  /** The steps left to a receiver with n bytes to copy. */
  function RecvRest(t: nat, n: nat, e: Env): seq<(Action, Env)> {
    if n == 0 then [(Give(t), e)] else [(DrainOne(t), e)] + RecvRest(t, n - 1, e)
  }

  /** Likewise the node of a receiver is free again, and its call has returned. */
  lemma {:induction false} RecvCompletes(s: State, t: nat, e: Env, size: nat, book: seq<nat>)
    requires Inv(s, size) && |e.prio| == |s.ts| && t < |s.jobs| && s.jobs[t].Draining?
    requires |s.jobs[t].got| <= Min(s.jobs[t].want, size)
    ensures var j := s.jobs[t];
      var r := Run(s, RecvRest(t, Min(j.want, size) - |j.got|, e), size, book).0;
      r.queue == s.queue && r.jobs == s.jobs[t := NoJob] && multiset(r.free) == multiset(s.free) + multiset{j.item.node}
    decreases Min(s.jobs[t].want, size) - |s.jobs[t].got|
  {
    hide Inv, Run;
    var j := s.jobs[t];
    var n := Min(j.want, size) - |j.got|;
    var steps := RecvRest(t, n, e);
    InHandOf(s, t, size);
    if n == 0 {
      LastStep(s, Give(t), e, size, book);
    } else {
      FirstStep(s, DrainOne(t), e, steps[1..], size, book);
      var s1 := Step(s, DrainOne(t), e, size).0;
      assert steps == [(DrainOne(t), e)] + steps[1..] && steps[1..] == RecvRest(t, n - 1, e);
      assert |s1.jobs[t].got| == |j.got| + 1 && s1.jobs[t := NoJob] == s.jobs[t := NoJob];
      RecvCompletes(s1, t, e, size, Noted(book, DrainOne(t)));
    }
  }

  /** What is in hand is a node of the pool with room for its bytes. */
  lemma InHandOf(s: State, t: nat, size: nat)
    requires Inv(s, size) && t < |s.jobs| && !s.jobs[t].NoJob?
    ensures |s.jobs| == |s.ts| && s.jobs[t].item.node < |s.data| && |s.data[s.jobs[t].item.node]| == size
    ensures |s.jobs[t].item.bytes| <= size
  {
  }

  lemma FirstStep(s: State, a: Action, e: Env, rest: seq<(Action, Env)>, size: nat, book: seq<nat>)
    requires Inv(s, size) && Enabled(s, a, e, size)
    ensures Inv(Step(s, a, e, size).0, size)
    ensures Run(s, [(a, e)] + rest, size, book).0 == Run(Step(s, a, e, size).0, rest, size, Noted(book, a)).0
  {
    hide Inv, Step;
    StepKeeps(s, a, e, size);
    assert ([(a, e)] + rest)[1..] == rest;
  }

  lemma LastStep(s: State, a: Action, e: Env, size: nat, book: seq<nat>)
    requires Inv(s, size) && Enabled(s, a, e, size)
    ensures Run(s, [(a, e)], size, book).0 == Step(s, a, e, size).0
  {
    hide Inv, Step;
    FirstStep(s, a, e, [], size, book);
    assert [(a, e)] + [] == [(a, e)];
  }

  // ---------------------------------------------------------------- receives, and who waits

  /** How long the receiver is still willing to wait. */
  function Patience(s: State, a: Action, e: Env): int
    requires a.RecvCall? || (a.Runs? && a.t < |s.ts| && s.ts[a.t].phase.Ready?)
  {
    if a.Runs? then var p := s.ts[a.t].phase; Remaining(p.timeout, p.start, e.now) else a.timeout
  }

  /** The verdict of a receive depends on the queue and the caller's patience alone; a
      thread whose wait ended in an error returns just that error. What is taken is the
      front message, with the buffer size the caller gave. */
  lemma RecvVerdict(s: State, a: Action, e: Env, size: nat, book: seq<nat>)
    requires Inv(s, size) && Enabled(s, a, e, size) && Booked(s, book) && (a.RecvCall? || a.Runs?)
    ensures var (s1, o) := Step(s, a, e, size);
      if a.Runs? && s.ts[a.t].error != EOK
          then o == Returned(s.ts[a.t].error) && s1.queue == s.queue && s1.jobs == s.jobs
      else if s.queue != [] then
        && o == Busy && s1.queue == s.queue[1..]
        && s1.jobs == s.jobs[a.t := Draining(s.queue[0], if a.Runs? then book[a.t] else a.want, [])]
      else if Patience(s, a, e) == 0 then o == Returned(ETIMEOUT) && s1.queue == [] && s1.jobs == s.jobs
      else o == Waits && s1.queue == [] && s1.jobs == s.jobs
  {
    hide Partitioned, Intact, Promised, Enqueue;
    if a.Runs? { assert Remembers(s.ts[a.t], book[a.t]); }
  }

  /** The threads once the caller runs: a resumed one is in no call until it waits again. */
  function Entered(s: State, a: Action): seq<Thread<Call>> {
    if a.Runs? && a.t < |s.ts| then s.ts[a.t := s.ts[a.t].(phase := Idle)] else s.ts
  }

  /** A receive that waits joins the wait list, and remembers its buffer size, the
      timeout that is left of it, and the tick it counts from; nothing else changes. */
  lemma WaitsAsAsked(s: State, a: Action, e: Env, size: nat, book: seq<nat>)
    requires Inv(s, size) && Enabled(s, a, e, size) && Booked(s, book) && (a.RecvCall? || a.Runs?)
    requires Step(s, a, e, size).1 == Waits
    ensures var (s1, left) := (Step(s, a, e, size).0, Patience(s, a, e));
      && FallsAsleep(s.ts, s1.ts, a.t, if a.Runs? then book[a.t] else a.want, left, if left > 0 then e.now else 0)
      && InRange(s.wait, |e.prio|) && Joins(s.wait, s1.wait, a.t, e.prio, e.flag)
      && s1.queue == s.queue && s1.free == s.free && s1.jobs == s.jobs && s1.data == s.data
  {
    hide Partitioned, Intact, Promised, Enqueue, Joins;
    if a.Runs? { assert Remembers(s.ts[a.t], book[a.t]); }
    EnqueueJoins(s.wait, a.t, e.prio, e.flag);
  }

  /** Linking a message wakes the receiver at the head of the wait list and nobody else;
      no other step of a send or a receive wakes anybody. */
  lemma WakesTheHead(s: State, a: Action, e: Env, size: nat)
    requires Inv(s, size) && Enabled(s, a, e, size)
    ensures var (s1, o) := Step(s, a, e, size);
      && (a.LinkIn? ==>
            if s.wait == [] then s1.wait == [] && s1.ts == s.ts
            else s1.wait == s.wait[1..] && WokeUp(s.ts, s1.ts, s.wait[0], EOK))
      && (a.SendCall? || a.FillOne? || a.DrainOne? || a.Give? || o.Busy? ==>
          s1.wait == s.wait && s1.ts == Entered(s, a))
  {
    hide Partitioned, Intact, Promised, Enqueue;
    if s.wait != [] { assert s.wait[0] in s.wait; }
  }

  /** A timeout takes its thread off the wait list and gives it -RT_ETIMEOUT; the queue
      and what is in hand stay. */
  lemma TimesOut(s: State, t: nat, e: Env, size: nat)
    requires Inv(s, size) && Enabled(s, Timer(t), e, size)
    ensures var s1 := Step(s, Timer(t), e, size).0;
      && WokeUp(s.ts, s1.ts, t, ETIMEOUT) && Leaves(s.wait, s1.wait, t)
      && s1.queue == s.queue && s1.free == s.free && s1.jobs == s.jobs && s1.data == s.data
  {
    hide Partitioned, Intact, Promised, Leaves;
    WithoutLeaves(s.wait, t);
  }

  /** A call that is refused, or comes back with an error, leaves everybody else as they were. */
  lemma RefusalIsLocal(s: State, a: Action, e: Env, size: nat)
    requires Inv(s, size) && Enabled(s, a, e, size) && (a.SendCall? || a.RecvCall? || a.Runs?)
    requires Step(s, a, e, size).1.Returned?
    ensures var s1 := Step(s, a, e, size).0;
      && OnlyThread(s.ts, s1.ts, a.t) && s1.ts[a.t].phase == Entered(s, a)[a.t].phase
      && (a.Runs? ==> s1.ts[a.t].error == Step(s, a, e, size).1.code)
      && s1.wait == s.wait && s1.queue == s.queue && s1.free == s.free && s1.jobs == s.jobs && s1.data == s.data
  {
    hide Partitioned, Intact, Promised, Enqueue;
  }

  /** Nobody has asked for anything yet. */
  lemma NothingAsked(s: State, book: seq<nat>)
    requires |book| == |s.ts| && forall t {:trigger s.ts[t]} :: 0 <= t < |s.ts| ==> s.ts[t].phase.Idle?
    ensures Booked(s, book)
  {
  }
}
