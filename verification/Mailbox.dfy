/** rt-thread/src/ipc.c, mailboxes: the object. Each method is one region that runs
    with interrupts off; a blocking call is its Enter method and, each time the
    thread is resumed, the Rerun method. */
module Mailbox {
  import opened Common
  import opened IpcWait
  import opened Lists
  import opened MailboxSpec

  class Box {
    const pool: array<int>            // msg_pool
    const size: nat
    var entry: nat
    var inOffset: nat
    var outOffset: nat
    var recvWait: seq<nat>            // parent.suspend_thread
    var sendWait: seq<nat>            // suspend_sender_thread
    var threads: seq<Thread<Call>>

    /** The mailbox uses the first size words of the pool. */
    ghost function Abs(): State
      requires size <= pool.Length
      reads this, pool
    {
      State(pool[..size], inOffset, outOffset, entry, recvWait, sendWait, threads)
    }

    ghost predicate Valid()
      reads this, pool
    {
      size <= pool.Length && Inv(Abs())
    }

    /** rt_mb_init: the size field is 16 bits wide, whatever size was asked for. */
    constructor (msgpool: array<int>, asked: nat, n: nat)
      requires msgpool.Length >= asked % 0x1_0000
      ensures Valid() && pool == msgpool && size == asked % 0x1_0000 && Abs() == Initial(size, msgpool[..size], n)
    {
      pool := msgpool;
      size := asked % 0x1_0000;
      entry, inOffset, outOffset := 0, 0, 0;
      recvWait, sendWait := [], [];
      threads := seq(n, _ => Thread(EOK, Idle));
    }

    /** rt_ipc_list_resume on the thread at the head of a list. */
    method WakeThread(t: nat)
      requires t < |threads| && threads[t].phase.Blocked?
      modifies this`threads
      ensures threads == Resume(old(threads), t)
    {
      var p := threads[t].phase;
      threads := threads[t := Thread(threads[t].error, Ready(p.call, p.timeout, p.start))];
    }

    /** rt_mb_send_wait up to its first return or rt_schedule. */
    method SendEnter(t: nat, value: int, timeout: int, e: Env) returns (o: Outcome)
      requires Valid() && |e.prio| == |threads| && t < |threads| && (timeout == 0 || threads[t].phase.Idle?)
      modifies this, pool
      ensures Valid() && (Abs(), o) == MailboxSpec.SendEnter(old(Abs()), t, value, timeout, e)
      ensures pool[size..] == old(pool[size..])
    {
      if entry == size && timeout == 0 { return Returned(EFULL); }
      TrySendKeeps(Abs(), t, value, timeout, e);
      o := TrySend(t, value, timeout, e);
    }

    /** rt_mb_recv up to its first return or rt_schedule. */
    method RecvEnter(t: nat, timeout: int, e: Env) returns (o: Outcome)
      requires Valid() && |e.prio| == |threads| && t < |threads| && (timeout == 0 || threads[t].phase.Idle?)
      modifies this
      ensures Valid() && (Abs(), o) == MailboxSpec.RecvEnter(old(Abs()), t, timeout, e)
    {
      if entry == 0 && timeout == 0 { return Returned(ETIMEOUT); }
      TryRecvKeeps(Abs(), t, timeout, e);
      o := TryRecv(t, timeout, e);
    }

    method TrySend(t: nat, value: int, timeout: int, e: Env) returns (o: Outcome)
      requires size <= pool.Length && Shaped(Abs(), e) && Waiting(Abs()) && t < |threads|
      modifies this, pool
      ensures (Abs(), o) == MailboxSpec.TrySend(old(Abs()), t, value, timeout, e)
      ensures pool[size..] == old(pool[size..])
    {
      if entry == size {
        threads := threads[t := threads[t].(error := EOK)];
        if timeout == 0 { return Returned(EFULL); }
        sendWait := Suspend(sendWait, t, e.prio, e.flag);
        threads := threads[t := Thread(EOK, Blocked(Send(value), timeout, if timeout > 0 then e.now else 0))];
        assert threads == Blocking(old(Abs()), t, Send(value), timeout, e);
        return Waits;
      }
      pool[inOffset] := value;
      assert pool[..size] == old(pool[..size])[old(inOffset) := value];
      inOffset := inOffset + 1;
      if inOffset >= size { inOffset := 0; }
      entry := entry + 1;
      if recvWait != [] {
        var head := recvWait[0];
        assert head in recvWait;
        recvWait := recvWait[1..];
        WakeThread(head);
      }
      o := Returned(EOK);
    }

    method TryRecv(t: nat, timeout: int, e: Env) returns (o: Outcome)
      requires size <= pool.Length && Shaped(Abs(), e) && Waiting(Abs()) && t < |threads|
      modifies this
      ensures (Abs(), o) == MailboxSpec.TryRecv(old(Abs()), t, timeout, e)
    {
      if entry == 0 {
        threads := threads[t := threads[t].(error := EOK)];
        if timeout == 0 {
          threads := threads[t := threads[t].(error := ETIMEOUT)];
          assert threads == old(threads)[t := old(threads)[t].(error := ETIMEOUT)];
          return Returned(ETIMEOUT);
        }
        recvWait := Suspend(recvWait, t, e.prio, e.flag);
        threads := threads[t := Thread(EOK, Blocked(Recv, timeout, if timeout > 0 then e.now else 0))];
        assert threads == Blocking(old(Abs()), t, Recv, timeout, e);
        return Waits;
      }
      o := Received(pool[outOffset]);
      outOffset := outOffset + 1;
      if outOffset >= size { outOffset := 0; }
      entry := entry - 1;
      if sendWait != [] {
        var head := sendWait[0];
        assert head in sendWait;
        sendWait := sendWait[1..];
        WakeThread(head);
      }
    }

    /** What a call does when its thread comes back from rt_schedule. */
    method Rerun(t: nat, e: Env) returns (o: Outcome)
      requires Valid() && |e.prio| == |threads| && t < |threads| && threads[t].phase.Ready?
      modifies this, pool
      ensures Valid() && (Abs(), o) == MailboxSpec.Rerun(old(Abs()), t, e)
      ensures pool[size..] == old(pool[size..])
    {
      RerunKeeps(Abs(), t, e);
      var p := threads[t].phase;
      threads := threads[t := threads[t].(phase := Idle)];
      if threads[t].error != EOK { return Returned(threads[t].error); }
      var left := Remaining(p.timeout, p.start, e.now);
      match p.call
      case Send(value) => o := TrySend(t, value, left, e);
      case Recv => o := TryRecv(t, left, e);
    }

    /** rt_thread_timeout for a thread waiting here. */
    method Timeout(t: nat)
      requires Valid() && t < |threads| && threads[t].phase.Blocked?
      modifies this
      ensures Valid() && Abs() == TimedOut(old(Abs()), t)
    {
      TimedOutKeeps(Abs(), t);
      threads := threads[t := threads[t].(error := ETIMEOUT)];
      recvWait, sendWait := Without(recvWait, t), Without(sendWait, t);
      WakeThread(t);
    }

    /** rt_ipc_list_resume_all on one of the two lists. */
    method WakeAll(list: seq<nat>)
      requires InRange(list, |threads|) && NoDup(list) && forall t {:trigger t in list} ::
          t in list ==> threads[t].phase.Blocked?
      modifies this`threads
      ensures threads == ResumeAll(old(threads), list)
    {
      var rest := list;
      while rest != []
        invariant InRange(rest, |threads|) && NoDup(rest)
        invariant |threads| == |old(threads)|
        invariant forall t {:trigger t in rest} :: t in rest ==> threads[t].phase.Blocked?
        invariant ResumeAll(threads, rest) == ResumeAll(old(threads), list)
        decreases |rest|
      {
        var t := rest[0];
        assert t in rest;
        HeadGone(rest);
        threads := threads[t := threads[t].(error := ERROR)];
        rest := rest[1..];
        WakeThread(t);
      }
    }

    /** rt_mb_control: reset is the only command. */
    method Control(reset: bool) returns (code: Code)
      requires Valid()
      modifies this
      ensures Valid() && Abs() == if reset then Reset(old(Abs())) else old(Abs())
      ensures code == if reset then EOK else ERROR
    {
      if !reset { return ERROR; }
      ResetKeeps(Abs());
      forall t | t in sendWait
        ensures t !in recvWait && threads[t].phase.Blocked?
      {
        assert Abs().ts[t] == threads[t];
      }
      ghost var ts := threads;
      WakeAll(recvWait);
      forall t | t in sendWait
        ensures threads[t].phase.Blocked?
      {
        ResumeAllAt(ts, recvWait, t);
      }
      recvWait := [];
      WakeAll(sendWait);
      sendWait := [];
      entry, inOffset, outOffset := 0, 0, 0;
      code := EOK;
    }
  }
}
