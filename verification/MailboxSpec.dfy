/** rt-thread/src/ipc.c, mailboxes: the atomic steps of rt_mb_send_wait, rt_mb_recv,
    the thread timeout and the reset, and what every interleaving of them keeps. */
module MailboxSpec {
  import opened Common
  import opened IpcWait
  import opened Lists

  datatype Call = Send(value: int) | Recv

  datatype State = State(pool: seq<int>, inOff: nat, outOff: nat, entry: nat,
                         recvWait: seq<nat>, sendWait: seq<nat>, ts: seq<Thread<Call>>)

  /** What a step reads from outside: priorities, the wait discipline, the tick. */
  datatype Env = Env(prio: seq<nat>, flag: Flag, now: nat)

  datatype Outcome = Returned(code: Code) | Received(value: int) | Waits

  /** i places on from out, round a ring of n. */
  function At(out: nat, i: nat, n: nat): nat
    requires out < n && i <= n
  {
    if out + i < n then out + i else out + i - n
  }

  predicate Ring(s: State) {
    && s.entry <= |s.pool| < 0x1_0000
    && if |s.pool| == 0 then s.inOff == 0 && s.outOff == 0
        else s.outOff < |s.pool| && s.inOff == At(s.outOff, s.entry, |s.pool|)
  }

  /** The queue the ring holds, oldest mail first. */
  function Contents(s: State): (r: seq<int>)
    requires Ring(s)
    ensures |r| == s.entry
  {
    seq(s.entry, i requires 0 <= i < s.entry => s.pool[At(s.outOff, i, |s.pool|)])
  }

  function Next(off: nat, n: nat): nat { if off + 1 >= n then 0 else off + 1 }

  /** The tail of a successful send. */
  function Deposit(s: State, value: int): State
    requires s.inOff < |s.pool|
  {
    var s1 := s.(pool := s.pool[s.inOff := value], inOff := Next(s.inOff, |s.pool|), entry := s.entry + 1);
    if s.recvWait == [] then s1 else s1.(recvWait := s.recvWait[1..], ts := Resume(s.ts, s.recvWait[0]))
  }

  /** The tail of a successful receive. */
  function Withdraw(s: State): State
    requires s.outOff < |s.pool| && s.entry > 0
  {
    var s1 := s.(outOff := Next(s.outOff, |s.pool|), entry := s.entry - 1);
    if s.sendWait == [] then s1 else s1.(sendWait := s.sendWait[1..], ts := Resume(s.ts, s.sendWait[0]))
  }

  predicate Shaped(s: State, e: Env) {
    Ring(s) && InRange(s.recvWait, |s.ts|) && InRange(s.sendWait, |s.ts|) && |e.prio| == |s.ts|
  }

  function Blocking(s: State, t: nat, call: Call, timeout: int, e: Env): seq<Thread<Call>>
    requires t < |s.ts|
  {
    s.ts[t := Thread(EOK, Blocked(call, timeout, if timeout > 0 then e.now else 0))]
  }

  /** The loop of rt_mb_send_wait from its test up to a return or rt_schedule. */
  function TrySend(s: State, t: nat, value: int, timeout: int, e: Env): (State, Outcome)
    requires Shaped(s, e) && t < |s.ts|
  {
    if s.entry < |s.pool| then (Deposit(s, value), Returned(EOK))
    else if timeout == 0 then (s.(ts := s.ts[t := s.ts[t].(error := EOK)]), Returned(EFULL))
    else (s.(sendWait := Enqueue(s.sendWait, t, e.prio, e.flag), ts := Blocking(s, t, Send(value), timeout, e)), Waits)
  }

  function TryRecv(s: State, t: nat, timeout: int, e: Env): (State, Outcome)
    requires Shaped(s, e) && t < |s.ts|
  {
    if s.entry > 0 then (Withdraw(s), Received(s.pool[s.outOff]))
    else if timeout == 0 then (s.(ts := s.ts[t := s.ts[t].(error := ETIMEOUT)]), Returned(ETIMEOUT))
    else (s.(recvWait := Enqueue(s.recvWait, t, e.prio, e.flag), ts := Blocking(s, t, Recv, timeout, e)), Waits)
  }

  function SendEnter(s: State, t: nat, value: int, timeout: int, e: Env): (State, Outcome)
    requires Shaped(s, e) && t < |s.ts|
  {
    if s.entry == |s.pool| && timeout == 0 then (s, Returned(EFULL)) else TrySend(s, t, value, timeout, e)
  }

  function RecvEnter(s: State, t: nat, timeout: int, e: Env): (State, Outcome)
    requires Shaped(s, e) && t < |s.ts|
  {
    if s.entry == 0 && timeout == 0 then (s, Returned(ETIMEOUT)) else TryRecv(s, t, timeout, e)
  }

  /** A resumed thread runs on behind its rt_schedule call. */
  function Rerun(s: State, t: nat, e: Env): (State, Outcome)
    requires Shaped(s, e) && t < |s.ts| && s.ts[t].phase.Ready?
  {
    var p := s.ts[t].phase;
    var s1 := s.(ts := s.ts[t := s.ts[t].(phase := Idle)]);
    if s.ts[t].error != EOK then (s1, Returned(s.ts[t].error))
    else
      var left := Remaining(p.timeout, p.start, e.now);
      match p.call
      case Send(value) => TrySend(s1, t, value, left, e)
      case Recv => TryRecv(s1, t, left, e)
  }

  /** The thread timer of a waiting thread fires. */
  function TimedOut(s: State, t: nat): State {
    s.(recvWait := Without(s.recvWait, t), sendWait := Without(s.sendWait, t), ts := ResumeWith(s.ts, t, ETIMEOUT))
  }

  /** rt_mb_control with RT_IPC_CMD_RESET. */
  function Reset(s: State): State {
    s.(entry := 0, inOff := 0, outOff := 0, recvWait := [], sendWait := [],
       ts := ResumeAll(ResumeAll(s.ts, s.recvWait), s.sendWait))
  }

  // ---------------------------------------------------------------- the invariant

  predicate Receiving(c: Call) { c.Recv? }

  predicate Sending(c: Call) { c.Send? }

  /** The wait lists hold exactly the blocked threads, once each. */
  ghost predicate Waiting(s: State) {
    && NoDup(s.recvWait) && NoDup(s.sendWait)
    && InRange(s.recvWait, |s.ts|) && InRange(s.sendWait, |s.ts|)
    && (forall t {:trigger s.ts[t]} :: 0 <= t < |s.ts| ==>
          && (t in s.recvWait <==> s.ts[t].phase.Blocked? && s.ts[t].phase.call.Recv?)
          && (t in s.sendWait <==> s.ts[t].phase.Blocked? && s.ts[t].phase.call.Send?)
          && (s.ts[t].phase.Blocked? ==> s.ts[t].error == EOK))
  }

  /** A receiver waits only while every mail is already promised to a receiver that
      was resumed and has not run yet; dually for senders and free places. The
      slacks allow for a thread in the middle of its step. */
  ghost predicate Promised(s: State, recvSlack: nat, sendSlack: nat) {
    && (s.recvWait != [] ==> s.entry <= |Woken(s.ts, Receiving)| + recvSlack)
    && (s.sendWait != [] ==> |s.pool| - s.entry <= |Woken(s.ts, Sending)| + sendSlack)
  }

  ghost predicate Inv(s: State) {
    Ring(s) && Waiting(s) && Promised(s, 0, 0)
  }

  function Initial(size: nat, pool: seq<int>, threads: nat): State {
    State(pool, 0, 0, 0, [], [], seq(threads, _ => Thread(EOK, Idle)))
  }

  // ---------------------------------------------------------------- the ring is a queue

  lemma DepositContents(s: State, value: int)
    requires Ring(s) && s.entry < |s.pool|
    ensures s.inOff < |s.pool| && Ring(Deposit(s, value)) && Contents(Deposit(s, value)) == Contents(s) + [value]
  {
    var c, c' := Contents(s), Contents(Deposit(s, value));
    forall i | 0 <= i < |c'|
      ensures c'[i] == (c + [value])[i]
    {
    }
  }

  lemma WithdrawContents(s: State)
    requires Ring(s) && s.entry > 0
    ensures Ring(Withdraw(s)) && Contents(s) == [s.pool[s.outOff]] + Contents(Withdraw(s))
  {
    var c, c' := Contents(s), Contents(Withdraw(s));
    forall i | 0 <= i < |c|
      ensures c[i] == ([s.pool[s.outOff]] + c')[i]
    {
      if i > 0 { assert c'[i - 1] == c[i]; }
    }
  }

  /** in_offset is (out_offset + entry) mod size. */
  lemma ModOnce(x: nat, n: nat)
    requires 0 < n && x < 2 * n
    ensures x % n == if x < n then x else x - n
  {
    if x >= n { assert x == (x - n) + n; }
  }

  lemma RingModulo(s: State)
    requires Ring(s) && |s.pool| > 0
    ensures s.inOff == (s.outOff + s.entry) % |s.pool|
  {
    ModOnce(s.outOff + s.entry, |s.pool|);
  }

  // ---------------------------------------------------------------- steps keep the invariant

  lemma WokenCounts(ts: seq<Thread<Call>>, t: nat, th: Thread<Call>)
    requires t < |ts|
    ensures |Woken(ts[t := th], Receiving)| ==
        |Woken(ts, Receiving)| +
        (if IsWoken(th, Receiving) then 1 else 0) - (if IsWoken(ts[t], Receiving) then 1 else 0)
    ensures |Woken(ts[t := th], Sending)| ==
        |Woken(ts, Sending)| + (if IsWoken(th, Sending) then 1 else 0) - (if IsWoken(ts[t], Sending) then 1 else 0)
  {
    WokenCount(ts, t, th, Receiving);
    WokenCount(ts, t, th, Sending);
  }

  lemma DepositKeeps(s: State, value: int)
    requires Ring(s) && Waiting(s) && Promised(s, 0, 1) && s.entry < |s.pool|
    ensures s.inOff < |s.pool| && Inv(Deposit(s, value))
  {
    DepositContents(s, value);
    if s.recvWait != [] {
      HeadGone(s.recvWait);
      assert s.recvWait[0] in s.recvWait;
      WokenCounts(s.ts, s.recvWait[0], Resume(s.ts, s.recvWait[0])[s.recvWait[0]]);
    }
  }

  lemma WithdrawKeeps(s: State)
    requires Ring(s) && Waiting(s) && Promised(s, 1, 0) && s.entry > 0
    ensures Inv(Withdraw(s))
  {
    WithdrawContents(s);
    if s.sendWait != [] {
      HeadGone(s.sendWait);
      assert s.sendWait[0] in s.sendWait;
      WokenCounts(s.ts, s.sendWait[0], Resume(s.ts, s.sendWait[0])[s.sendWait[0]]);
    }
  }

  lemma TrySendKeeps(s: State, t: nat, value: int, timeout: int, e: Env)
    requires Shaped(s, e) && Waiting(s) && Promised(s, 0, 1) && t < |s.ts|
    requires timeout != 0 || s.entry == |s.pool| ==> s.ts[t].phase.Idle?
    ensures Inv(TrySend(s, t, value, timeout, e).0)
  {
    if s.entry < |s.pool| {
      DepositKeeps(s, value);
    } else {
      var s' := TrySend(s, t, value, timeout, e).0;
      WokenCounts(s.ts, t, s'.ts[t]);
      EnqueueMembers(s.sendWait, t, e.prio, e.flag);
    }
  }

  lemma TryRecvKeeps(s: State, t: nat, timeout: int, e: Env)
    requires Shaped(s, e) && Waiting(s) && Promised(s, 1, 0) && t < |s.ts|
    requires timeout != 0 || s.entry == 0 ==> s.ts[t].phase.Idle?
    ensures Inv(TryRecv(s, t, timeout, e).0)
  {
    if s.entry > 0 {
      WithdrawKeeps(s);
    } else {
      var s' := TryRecv(s, t, timeout, e).0;
      WokenCounts(s.ts, t, s'.ts[t]);
      EnqueueMembers(s.recvWait, t, e.prio, e.flag);
    }
  }

  /** A resumed thread gives up its place among the woken when it runs. */
  lemma RerunKeeps(s: State, t: nat, e: Env)
    requires Shaped(s, e) && Inv(s) && t < |s.ts| && s.ts[t].phase.Ready?
    ensures Inv(Rerun(s, t, e).0)
  {
    var ts1 := s.ts[t := s.ts[t].(phase := Idle)];
    var s1 := s.(ts := ts1);
    var p := s.ts[t].phase;
    WokenCounts(s.ts, t, ts1[t]);
    if s.ts[t].error == EOK {
      var left := Remaining(p.timeout, p.start, e.now);
      match p.call
      case Send(value) => TrySendKeeps(s1, t, value, left, e);
      case Recv => TryRecvKeeps(s1, t, left, e);
    }
  }

  lemma TimedOutKeeps(s: State, t: nat)
    requires Inv(s) && t < |s.ts| && s.ts[t].phase.Blocked?
    ensures Inv(TimedOut(s, t))
  {
    WithoutMembers(s.recvWait, t);
    WithoutMembers(s.sendWait, t);
    WokenCounts(s.ts, t, ResumeWith(s.ts, t, ETIMEOUT)[t]);
    assert ResumeWith(s.ts, t, ETIMEOUT) == s.ts[t := ResumeWith(s.ts, t, ETIMEOUT)[t]];
    AllInRange(Without(s.recvWait, t), s.recvWait, |s.ts|);
    AllInRange(Without(s.sendWait, t), s.sendWait, |s.ts|);
  }

  lemma ResetThreads(s: State, t: nat)
    requires Waiting(s) && t < |s.ts|
    ensures var th, r := s.ts[t], Reset(s).ts[t];
            r == if th.phase.Blocked? then Thread(ERROR, Ready(th.phase.call, th.phase.timeout, th.phase.start)) else th
  {
    var ts1 := ResumeAll(s.ts, s.recvWait);
    forall x | 0 <= x < |s.ts|
      ensures ts1[x] == if x in s.recvWait
          then Thread(ERROR, Ready(s.ts[x].phase.call, s.ts[x].phase.timeout, s.ts[x].phase.start)) else s.ts[x]
    {
      ResumeAllAt(s.ts, s.recvWait, x);
    }
    ResumeAllAt(ts1, s.sendWait, t);
  }

  /** After a reset nobody waits, and everyone who did returns -RT_ERROR when it runs. */
  lemma ResetKeeps(s: State)
    requires Inv(s)
    ensures Inv(Reset(s)) && Contents(Reset(s)) == []
    ensures forall t {:trigger s.ts[t]} ::
        0 <= t < |s.ts| && s.ts[t].phase.Blocked? ==> Reset(s).ts[t].phase.Ready? && Reset(s).ts[t].error == ERROR
  {
    forall t | 0 <= t < |s.ts|
      ensures var th, r := s.ts[t], Reset(s).ts[t];
              r == if th.phase.Blocked?
                  then Thread(ERROR, Ready(th.phase.call, th.phase.timeout, th.phase.start)) else th
    {
      ResetThreads(s, t);
    }
  }
}
