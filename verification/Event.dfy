/** rt-thread/src/ipc.c, event flags: the object, one method per atomic region. */
module Event {
  import opened Common
  import opened IpcWait
  import opened Lists
  import opened EventSpec

  class Flags {
    var bits: bv32                    // event->set
    var wait: seq<nat>                // parent.suspend_thread
    var threads: seq<Thread<Request>> // error, stat, event_set and event_info

    ghost function Abs(): State
      reads this
    {
      State(bits, wait, threads)
    }

    ghost predicate Valid()
      reads this
    {
      Inv(Abs())
    }

    constructor (n: nat)
      ensures Valid() && Abs() == Initial(n)
    {
      bits := 0;
      wait := [];
      threads := seq(n, _ => Thread(EOK, Idle));
    }

    /** rt_event_send: n walks the list while satisfied threads leave it. */
    method Send(more: bv32) returns (code: Code)
      requires Valid()
      modifies this
      ensures Valid() && (Abs(), Returned(code)) == EventSpec.Send(old(Abs()), more)
    {
      hide Meets, Stored, Rest, Pass;
      if more == 0 { return ERROR; }
      SendKeeps(Abs(), more);
      InvAhead(Abs());
      bits := bits | more;
      Walk();
      code := EOK;
    }

    method Walk()
      requires Ahead(wait, threads, 0)
      modifies this
      ensures Abs() == Pass(old(bits), old(wait), old(threads))
    {
      hide Pass, Ahead;
      var n: nat := 0;
      assert wait[..0] == [] && wait[0..] == wait;
      while n < |wait|
        invariant n <= |wait| && Ahead(wait, threads, n)
        invariant Joined(wait[..n], Pass(bits, wait[n..], threads)) == Pass(old(bits), old(wait), old(threads))
        decreases |wait| - n
      {
        n := VisitOne(n);
      }
      PassEnd(bits, wait, threads);
    }

    /** The loop body: thread at position n is resumed, or passed over. */
    method VisitOne(n: nat) returns (n1: nat)
      requires n < |wait| && Ahead(wait, threads, n)
      modifies this
      ensures n1 <= |wait| && |wait| - n1 < |old(wait)| - n && Ahead(wait, threads, n1)
      ensures Joined(wait[..n1], Pass(bits, wait[n1..], threads)) ==
          Joined(old(wait)[..n], Pass(old(bits), old(wait)[n..], old(threads)))
    {
      hide Pass, Both, Less;
      var t := wait[n];
      var r := threads[t].phase.call;
      var ok := false;
      if r.all {
        if Both(bits, r.bits) == r.bits { ok := true; }
      } else if r.any {
        if Both(r.bits, bits) != 0 {
          MaskNarrowed(bits, r.bits);
          r := r.(bits := Both(r.bits, bits));
          ok := true;
        } else {
          MaskNarrowed(bits, r.bits);
        }
      }
      assert ok == Meets(bits, threads[t].phase.call) && (ok ==> r.bits == Stored(bits, threads[t].phase.call));
      PassStep(bits, wait, n, threads);
      n1 := n + 1;
      if ok {
        if r.clear { bits := Less(bits, r.bits); }
        wait := wait[..n] + wait[n + 1..];
        threads := threads[t := Thread(threads[t].error, Ready(r, threads[t].phase.timeout, threads[t].phase.start))];
        n1 := n;
      }
      RemovedAt(old(wait), n, wait, n1, old(threads), threads);
    }

    /** rt_event_recv up to its return or rt_schedule; one of all and any is set. */
    method RecvEnter(t: nat, r: Request, timeout: int, e: Env) returns (o: Outcome)
      requires Valid() && t < |threads| == |e.prio| && threads[t].phase.Idle? && (r.all || r.any)
      modifies this
      ensures Valid() && (Abs(), o) == EventSpec.RecvEnter(old(Abs()), t, r, timeout, e)
    {
      hide Both, Less;
      RecvEnterKeeps(Abs(), t, r, timeout, e);
      if r.bits == 0 { return Returned(ERROR); }
      var ok := false;
      threads := threads[t := threads[t].(error := EOK)];
      if r.all {
        if Both(bits, r.bits) == r.bits { ok := true; }
      } else {
        if Both(bits, r.bits) != 0 { ok := true; }
      }
      if ok {
        o := Received(Both(bits, r.bits));
        if r.clear { bits := Less(bits, r.bits); }
      } else if timeout == 0 {
        threads := threads[t := threads[t].(error := ETIMEOUT)];
        assert threads == old(threads)[t := threads[t]];
        o := Returned(ETIMEOUT);
      } else {
        wait := Suspend(wait, t, e.prio, e.flag);
        threads := threads[t := Thread(EOK, Blocked(r, timeout, 0))];
        assert threads == old(threads)[t := threads[t]];
        o := Waits;
      }
    }

    /** What rt_event_recv does when its thread comes back from rt_schedule. */
    method Rerun(t: nat) returns (o: Outcome)
      requires Valid() && t < |threads| && threads[t].phase.Ready?
      modifies this
      ensures Valid() && (Abs(), o) == EventSpec.Rerun(old(Abs()), t)
    {
      hide Meets;
      var p := threads[t].phase;
      threads := threads[t := threads[t].(phase := Idle)];
      if threads[t].error != EOK { return Returned(threads[t].error); }
      o := Received(p.call.bits);
    }

    /** rt_thread_timeout for a thread waiting here. */
    method Timeout(t: nat)
      requires Valid() && t < |threads| && threads[t].phase.Blocked?
      modifies this
      ensures Valid() && Abs() == TimedOut(old(Abs()), t)
    {
      hide Meets;
      TimedOutKeeps(Abs(), t);
      var p := threads[t].phase;
      wait := Without(wait, t);
      threads := threads[t := Thread(ETIMEOUT, Ready(p.call, p.timeout, p.start))];
      assert threads == ResumeWith(old(threads), t, ETIMEOUT);
    }

    /** rt_event_control: reset is the only command. */
    method Control(reset: bool) returns (code: Code)
      requires Valid()
      modifies this
      ensures Valid() && Abs() == if reset then Reset(old(Abs())) else old(Abs())
      ensures code == if reset then EOK else ERROR
    {
      hide Meets;
      if !reset { return ERROR; }
      ResetKeeps(Abs());
      while wait != []
        invariant InRange(wait, |threads|) && NoDup(wait) && |threads| == |old(threads)|
        invariant forall t {:trigger t in wait} :: t in wait ==> threads[t].phase.Blocked?
        invariant ResumeAll(threads, wait) == ResumeAll(old(threads), old(wait))
        decreases |wait|
      {
        var t := wait[0];
        assert t in wait;
        HeadGone(wait);
        threads := threads[t := threads[t].(error := ERROR)];
        var p := threads[t].phase;
        wait := wait[1..];
        threads := threads[t := Thread(threads[t].error, Ready(p.call, p.timeout, p.start))];
      }
      bits := 0;
      code := EOK;
    }
  }

  // ---------------------------------------------------------------- the pass, seen from its middle

  /** A list that starts with waiters already passed over. */
  function Joined(front: seq<nat>, p: State): State { p.(wait := front + p.wait) }

  /** From position n on the list is as a wait list should be. */
  ghost predicate Ahead(wait: seq<nat>, ts: seq<Thread<Request>>, n: nat) {
    && n <= |wait| && NoDup(wait) && InRange(wait, |ts|)
    && forall i {:trigger wait[i]} :: n <= i < |wait| ==> ts[wait[i]].phase.Blocked?
  }

  lemma InvAhead(s: State)
    requires Waiting(s)
    ensures Ahead(s.wait, s.ts, 0)
  {
    InvParks(s, s.set_);
  }

  lemma PassEnd(set_: bv32, wait: seq<nat>, ts: seq<Thread<Request>>)
    ensures Joined(wait[..|wait|], Pass(set_, wait[|wait|..], ts)) == State(set_, wait, ts)
  {
  }

  lemma PassStep(set_: bv32, wait: seq<nat>, n: nat, ts: seq<Thread<Request>>)
    requires n < |wait| && wait[n] < |ts| && ts[wait[n]].phase.Blocked?
    ensures var r := ts[wait[n]].phase.call;
            Joined(wait[..n], Pass(set_, wait[n..], ts)) ==
              if Meets(set_, r) then
                var wait1 := wait[..n] + wait[n + 1..];
                Joined(wait1[..n],
                    Pass(Rest(set_, Stored(set_, r), r.clear), wait1[n..], Wake(ts, wait[n], Stored(set_, r))))
              else Joined(wait[..n + 1], Pass(set_, wait[n + 1..], ts))
  {
    hide Meets, Stored, Rest;
    var r, tail := ts[wait[n]].phase.call, wait[n..];
    assert tail[0] == wait[n] && tail[1..] == wait[n + 1..];
    if Meets(set_, r) {
      var wait1 := wait[..n] + wait[n + 1..];
      assert wait1[..n] == wait[..n] && wait1[n..] == wait[n + 1..];
    } else {
      assert wait[..n + 1] == wait[..n] + [wait[n]];
    }
  }

  lemma RemovedAt(wait: seq<nat>, n: nat, wait1: seq<nat>, n1: nat, ts: seq<Thread<Request>>, ts1: seq<Thread<Request>>)
    requires n < |wait| && Ahead(wait, ts, n) && |ts1| == |ts|
    requires if n1 == n then wait1 == wait[..n] + wait[n + 1..] else n1 == n + 1 && wait1 == wait
    requires forall t {:trigger ts1[t]} :: 0 <= t < |ts| && t != wait[n] ==> ts1[t] == ts[t]
    ensures n1 <= |wait1| && |wait1| - n1 < |wait| - n && Ahead(wait1, ts1, n1)
  {
    forall i | 0 <= i < |wait1|
      ensures wait1[i] == if i < n1 then wait[i] else wait[i + n + 1 - n1]
    {
    }
  }
}
