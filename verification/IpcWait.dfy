/** rt-thread/src/ipc.c, lines 79 to 184: the waiting side every IPC object shares.
    Threads are numbers; a thread inside a blocking call is Blocked while it is on a
    wait list and Ready once it was resumed but has not run again. Every region with
    interrupts off is one atomic step. */
module IpcWait {
  import opened Common
  import opened Lists

  datatype Flag = FIFO | PRIO

  datatype Phase<C> = Idle | Blocked(call: C, timeout: int, start: nat) | Ready(call: C, timeout: int, start: nat)

  datatype Thread<C> = Thread(error: Code, phase: Phase<C>)

  /** First position at or after k whose thread is less urgent than p. */
  function Place(list: seq<nat>, prio: seq<nat>, p: nat, k: nat): (r: nat)
    requires InRange(list, |prio|) && k <= |list|
    ensures k <= r <= |list|
    ensures r < |list| ==> p < prio[list[r]]
    ensures forall j {:trigger list[j]} :: k <= j < r ==> prio[list[j]] <= p
    decreases |list| - k
  {
    if k == |list| || p < prio[list[k]] then k else Place(list, prio, p, k + 1)
  }

  /** Where rt_ipc_list_suspend puts thread t. */
  function Slot(list: seq<nat>, t: nat, prio: seq<nat>, flag: Flag): (k: nat)
    requires InRange(list, |prio|) && t < |prio|
    ensures k <= |list|
  {
    if flag.FIFO? then |list| else Place(list, prio, prio[t], 0)
  }

  function Enqueue(list: seq<nat>, t: nat, prio: seq<nat>, flag: Flag): seq<nat>
    requires InRange(list, |prio|) && t < |prio|
  {
    Insert(list, t, Slot(list, t, prio, flag))
  }

  method Suspend(list: seq<nat>, t: nat, prio: seq<nat>, flag: Flag) returns (r: seq<nat>)
    requires InRange(list, |prio|) && t < |prio|
    ensures r == Enqueue(list, t, prio, flag)
  {
    match flag
    case FIFO =>
      r := list + [t];
    case PRIO =>
      var n := 0;
      while n < |list| && prio[list[n]] <= prio[t]
        invariant n <= |list|
        invariant Place(list, prio, prio[t], n) == Place(list, prio, prio[t], 0)
      {
        n := n + 1;
      }
      r := list[..n] + [t] + list[n..];
  }

  lemma EnqueueMembers(list: seq<nat>, t: nat, prio: seq<nat>, flag: Flag)
    requires InRange(list, |prio|) && t < |prio|
    ensures var r := Enqueue(list, t, prio, flag);
      && |r| == |list| + 1 && InRange(r, |prio|)
      && (forall x {:trigger x in r} :: x in r <==> x == t || x in list)
      && (NoDup(list) && t !in list ==> NoDup(r))
  {
    InsertMembers(list, t, Slot(list, t, prio, flag));
  }

  predicate SortedBy(list: seq<nat>, prio: seq<nat>)
    requires InRange(list, |prio|)
  {
    forall i, j {:trigger list[i], list[j]} :: 0 <= i < j < |list| ==> prio[list[i]] <= prio[list[j]]
  }

  /** PRIO waiting keeps the list sorted, and puts t behind everyone at least as
      urgent and in front of the rest: the queue is stable. */
  lemma EnqueueSorted(list: seq<nat>, t: nat, prio: seq<nat>)
    requires InRange(list, |prio|) && t < |prio| && SortedBy(list, prio)
    ensures var r, k := Enqueue(list, t, prio, PRIO), Slot(list, t, prio, PRIO);
      && InRange(r, |prio|) && SortedBy(r, prio) && r[k] == t
      && (forall j {:trigger r[j]} :: 0 <= j < k ==> r[j] == list[j] && prio[r[j]] <= prio[t])
      && (forall j {:trigger r[j]} :: k < j < |r| ==> r[j] == list[j - 1] && prio[t] < prio[r[j]])
  {
    var r, k := Enqueue(list, t, prio, PRIO), Slot(list, t, prio, PRIO);
    forall j | k < j < |r|
      ensures prio[t] < prio[r[j]]
    {
      assert k < j - 1 ==> prio[list[k]] <= prio[list[j - 1]];
    }
  }

  /** rt_thread_resume of a thread waiting in a call. */
  function Resume<C>(ts: seq<Thread<C>>, t: nat): seq<Thread<C>> {
    if t < |ts| && ts[t].phase.Blocked?
    then ts[t := Thread(ts[t].error, Ready(ts[t].phase.call, ts[t].phase.timeout, ts[t].phase.start))]
    else ts
  }

  function ResumeWith<C>(ts: seq<Thread<C>>, t: nat, error: Code): seq<Thread<C>> {
    if t < |ts| then Resume(ts[t := ts[t].(error := error)], t) else ts
  }

  /** rt_ipc_list_resume_all: everybody on the list leaves with -RT_ERROR. */
  function ResumeAll<C>(ts: seq<Thread<C>>, list: seq<nat>): (r: seq<Thread<C>>)
    ensures |r| == |ts|
    decreases |list|
  {
    if list == [] then ts else ResumeAll(ResumeWith(ts, list[0], ERROR), list[1..])
  }

  lemma {:induction false} ResumeAllAt<C>(ts: seq<Thread<C>>, list: seq<nat>, t: nat)
    requires t < |ts| && forall x {:trigger x in list} :: x in list && x < |ts| ==> ts[x].phase.Blocked?
    ensures NoDup(list) ==> ResumeAll(ts, list)[t] == if t in list
      then Thread(ERROR, Ready(ts[t].phase.call, ts[t].phase.timeout, ts[t].phase.start)) else ts[t]
    decreases |list|
  {
    if list != [] && NoDup(list) {
      HeadGone(list);
      ResumeAllAt(ResumeWith(ts, list[0], ERROR), list[1..], t);
    }
  }

  // ---------------------------------------------------------------- what callers may rely on

  /** At most thread t has changed. */
  ghost predicate OnlyThread<C>(ts: seq<Thread<C>>, ts1: seq<Thread<C>>, t: nat) {
    |ts1| == |ts| && t < |ts| && forall u {:trigger ts1[u]} :: 0 <= u < |ts| && u != t ==> ts1[u] == ts[u]
  }

  /** Thread t, which was blocked in a call, is ready to go on in it with this error code. */
  ghost predicate WokeUp<C>(ts: seq<Thread<C>>, ts1: seq<Thread<C>>, t: nat, code: Code) {
    && OnlyThread(ts, ts1, t) && ts[t].phase.Blocked? && ts1[t].phase.Ready?
    && ts1[t].error == code && ts1[t].phase.call == ts[t].phase.call
    && ts1[t].phase.timeout == ts[t].phase.timeout && ts1[t].phase.start == ts[t].phase.start
  }

  /** Thread t blocks in this call, with this timeout, from this tick on. */
  ghost predicate FallsAsleep<C>(ts: seq<Thread<C>>, ts1: seq<Thread<C>>, t: nat, call: C, timeout: int, start: nat) {
    && OnlyThread(ts, ts1, t) && ts1[t].error == EOK && ts1[t].phase.Blocked?
    && ts1[t].phase.call == call && ts1[t].phase.timeout == timeout && ts1[t].phase.start == start
  }

  ghost predicate JoinsAt(list: seq<nat>, r: seq<nat>, t: nat, prio: seq<nat>, flag: Flag, k: nat)
    requires InRange(list, |prio|) && t < |prio|
  {
    && k <= |list| && r == list[..k] + [t] + list[k..]
    && match flag
       case FIFO => k == |list|
       case PRIO =>
         && (forall j {:trigger list[j]} :: 0 <= j < k ==> prio[list[j]] <= prio[t])
         && (k < |list| ==> prio[t] < prio[list[k]])
  }

  /** t has joined the wait list: at the end, or behind the last in front that is as urgent. */
  ghost predicate Joins(list: seq<nat>, r: seq<nat>, t: nat, prio: seq<nat>, flag: Flag)
    requires InRange(list, |prio|) && t < |prio|
  {
    exists k: nat :: JoinsAt(list, r, t, prio, flag, k)
  }

  lemma EnqueueJoins(list: seq<nat>, t: nat, prio: seq<nat>, flag: Flag)
    requires InRange(list, |prio|) && t < |prio|
    ensures Joins(list, Enqueue(list, t, prio, flag), t, prio, flag)
  {
    assert JoinsAt(list, Enqueue(list, t, prio, flag), t, prio, flag, Slot(list, t, prio, flag));
  }

  /** Resumed by the other side, and not run since. */
  predicate IsWoken<C>(th: Thread<C>, f: C -> bool) { th.phase.Ready? && th.error == EOK && f(th.phase.call) }

  /** The threads woken in a call of the kind f. */
  ghost function Woken<C>(ts: seq<Thread<C>>, f: C -> bool): set<nat> {
    set t {:trigger ts[t]} | 0 <= t < |ts| && IsWoken(ts[t], f)
  }

  predicate AnyCall<C>(c: C) { true }

  lemma WokenUpdate<C>(ts: seq<Thread<C>>, t: nat, th: Thread<C>, f: C -> bool)
    requires t < |ts|
    ensures Woken(ts[t := th], f) == if IsWoken(th, f) then Woken(ts, f) + {t} else Woken(ts, f) - {t}
    ensures t in Woken(ts, f) <==> IsWoken(ts[t], f)
  {
  }

  lemma WokenCount<C>(ts: seq<Thread<C>>, t: nat, th: Thread<C>, f: C -> bool)
    requires t < |ts|
    ensures |Woken(ts[t := th], f)| ==
        |Woken(ts, f)| + (if IsWoken(th, f) then 1 else 0) - (if IsWoken(ts[t], f) then 1 else 0)
  {
    WokenUpdate(ts, t, th, f);
    hide Woken;
    if t in Woken(ts, f) { assert Woken(ts, f) + {t} == Woken(ts, f); }
  }

  /** timeout -= rt_tick_get() - start, in 32-bit arithmetic, clipped at 0. */
  function Remaining(timeout: int, start: nat, now: nat): (r: int) {
    if timeout <= 0 then timeout
    else
      var left := (timeout - (now - start) % WORD_RANGE) % WORD_RANGE;
      if left >= WORD_RANGE / 2 then 0 else left
  }

  /** Waiting for ever stays so. Otherwise, late by at most half the tick range, the rest is
      what is left of the timeout, never below 0. */
  lemma RemainingIs(timeout: int, start: nat, delta: nat)
    requires timeout < WORD_RANGE / 2 && delta < WORD_RANGE && start < WORD_RANGE
    ensures var r := Remaining(timeout, start, (start + delta) % WORD_RANGE);
      if timeout <= 0 then r == timeout
      else (r == if delta <= timeout then timeout - delta else 0) <==> delta <= timeout + WORD_RANGE / 2
  {
    var now := (start + delta) % WORD_RANGE;
    assert (now - start) % WORD_RANGE == delta;
    if timeout <= 0 {
    } else if delta <= timeout {
      assert (timeout - delta) % WORD_RANGE == timeout - delta;
    } else {
      assert (timeout - delta) % WORD_RANGE == timeout - delta + WORD_RANGE;
    }
  }
}
