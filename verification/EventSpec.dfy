/** rt-thread/src/ipc.c, event flags: the atomic steps of rt_event_send, rt_event_recv,
    the thread timeout and the reset, and what every interleaving of them keeps. */
module EventSpec {
  import opened Common
  import opened IpcWait
  import opened Lists

  /** A receive: the bits of interest and the three option flags. While the thread is
      Ready, bits is what it received. */
  datatype Request = Request(bits: bv32, all: bool, any: bool, clear: bool)

  datatype State = State(set_: bv32, wait: seq<nat>, ts: seq<Thread<Request>>)

  datatype Outcome = Returned(code: Code) | Received(bits: bv32) | Waits

  datatype Env = Env(prio: seq<nat>, flag: Flag)

  /** RT_EVENT_FLAG_AND is looked at first. */
  predicate Meets(set_: bv32, r: Request) {
    if r.all then Both(set_, r.bits) == r.bits else r.any && Both(set_, r.bits) != 0
  }

  function Both(a: bv32, b: bv32): bv32 { a & b }

  function Less(a: bv32, b: bv32): bv32 { a & !b }

  /** The event_set field of a waiter whose condition was found to hold. */
  function Stored(set_: bv32, r: Request): bv32 { if r.all then r.bits else Both(r.bits, set_) }

  function Rest(set_: bv32, bits: bv32, clear: bool): bv32 { if clear then Less(set_, bits) else set_ }

  function Wake(ts: seq<Thread<Request>>, t: nat, bits: bv32): seq<Thread<Request>> {
    if t < |ts| && ts[t].phase.Blocked?
    then ts[t := Thread(ts[t].error, Ready(ts[t].phase.call.(bits := bits), ts[t].phase.timeout, ts[t].phase.start))]
    else ts
  }

  predicate Parked(s: State) {
    InRange(s.wait, |s.ts|) && forall i {:trigger s.wait[i]} :: 0 <= i < |s.wait| ==> s.ts[s.wait[i]].phase.Blocked?
  }

  function RequestOf(ts: seq<Thread<Request>>, t: nat): Request {
    if t < |ts| && !ts[t].phase.Idle? then ts[t].phase.call else Request(0, false, false, false)
  }

  /** The pass of rt_event_send over the waiting threads, front to back. */
  function Pass(set_: bv32, wait: seq<nat>, ts: seq<Thread<Request>>): State
    decreases |wait|
  {
    if wait == [] then State(set_, [], ts)
    else
      var r := RequestOf(ts, wait[0]);
      if Meets(set_, r) then
        Pass(Rest(set_, Stored(set_, r), r.clear), wait[1..], Wake(ts, wait[0], Stored(set_, r)))
      else
        var rest := Pass(set_, wait[1..], ts);
        rest.(wait := [wait[0]] + rest.wait)
  }

  function Send(s: State, bits: bv32): (State, Outcome) {
    if bits == 0 then (s, Returned(ERROR)) else (Pass(s.set_ | bits, s.wait, s.ts), Returned(EOK))
  }

  /** rt_event_recv up to its return or rt_schedule. */
  function RecvEnter(s: State, t: nat, r: Request, timeout: int, e: Env): (State, Outcome)
    requires InRange(s.wait, |s.ts|) && t < |s.ts| == |e.prio|
  {
    if r.bits == 0 then (s, Returned(ERROR))
    else if Meets(s.set_, r) then
      (s.(set_ := Rest(s.set_, r.bits, r.clear), ts := s.ts[t := s.ts[t].(error := EOK)]),
          Received(Both(s.set_, r.bits)))
    else if timeout == 0 then
      (s.(ts := s.ts[t := s.ts[t].(error := ETIMEOUT)]), Returned(ETIMEOUT))
    else
      (s.(wait := Enqueue(s.wait, t, e.prio, e.flag), ts := s.ts[t := Thread(EOK, Blocked(r, timeout, 0))]), Waits)
  }

  /** A resumed thread runs on behind its rt_schedule call. */
  function Rerun(s: State, t: nat): (State, Outcome)
    requires t < |s.ts| && s.ts[t].phase.Ready?
  {
    (s.(ts := s.ts[t := s.ts[t].(phase := Idle)]),
     if s.ts[t].error != EOK then Returned(s.ts[t].error) else Received(s.ts[t].phase.call.bits))
  }

  function TimedOut(s: State, t: nat): State {
    s.(wait := Without(s.wait, t), ts := ResumeWith(s.ts, t, ETIMEOUT))
  }

  /** rt_event_control with RT_IPC_CMD_RESET. */
  function Reset(s: State): State { State(0, [], ResumeAll(s.ts, s.wait)) }

  // ---------------------------------------------------------------- the invariant

  ghost predicate Unmet(s: State) {
    forall t {:trigger s.ts[t]} :: 0 <= t < |s.ts| && s.ts[t].phase.Blocked? ==> !Meets(s.set_, s.ts[t].phase.call)
  }

  ghost predicate Waiting(s: State) {
    && NoDup(s.wait) && InRange(s.wait, |s.ts|)
    && forall t {:trigger s.ts[t]} :: 0 <= t < |s.ts| ==>
         && (t in s.wait <==> s.ts[t].phase.Blocked?)
         && (s.ts[t].phase.Blocked? ==> s.ts[t].error == EOK && s.ts[t].phase.call.bits != 0)
  }

  /** Nobody waits for what is already there. */
  ghost predicate Inv(s: State) { Waiting(s) && Unmet(s) }

  lemma AllFewer(a: bv32, b: bv32, r: bv32)
    ensures Both(Less(a, b), r) == r ==> Both(a, r) == r
  {
  }

  lemma AnyFewer(a: bv32, b: bv32, r: bv32)
    ensures Both(Less(a, b), r) != 0 ==> Both(a, r) != 0
  {
  }

  /** Taking bits away satisfies nobody. */
  lemma FewerBits(a: bv32, b: bv32, r: Request)
    ensures Meets(Less(a, b), r) ==> Meets(a, r)
  {
    hide Both, Less;
    AllFewer(a, b, r.bits);
    AnyFewer(a, b, r.bits);
  }

  // ---------------------------------------------------------------- one pass is a row of immediate receives

  /** The set after the first i waiters tried an rt_event_recv with timeout 0. */
  function SetAfter(set_: bv32, wait: seq<nat>, ts: seq<Thread<Request>>, i: nat): bv32
    requires i <= |wait|
  {
    if i == 0 then set_
    else
      var before, r := SetAfter(set_, wait, ts, i - 1), RequestOf(ts, wait[i - 1]);
      if Meets(before, r) then Rest(before, r.bits, r.clear) else before
  }

  lemma MaskNarrowed(a: bv32, r: bv32)
    ensures Less(a, Both(r, a)) == Less(a, r) && Both(r, a) == Both(a, r)
  {
  }

  lemma Residual(set_: bv32, r: Request)
    requires Meets(set_, r)
    ensures Rest(set_, Stored(set_, r), r.clear) == Rest(set_, r.bits, r.clear)
    ensures Stored(set_, r) == Both(set_, r.bits)
  {
    hide Both, Less;
    MaskNarrowed(set_, r.bits);
  }

  /** SetAfter from the second waiter on. */
  lemma {:induction false} SetAfterTail(set_: bv32, wait: seq<nat>, ts: seq<Thread<Request>>,
      ts1: seq<Thread<Request>>, i: nat)
    requires 0 < i <= |wait|
    requires forall j {:trigger wait[j]} :: 0 < j < |wait| ==> RequestOf(ts1, wait[j]) == RequestOf(ts, wait[j])
    ensures SetAfter(SetAfter(set_, wait, ts, 1), wait[1..], ts1, i - 1) == SetAfter(set_, wait, ts, i)
  {
    if i > 1 {
      SetAfterTail(set_, wait, ts, ts1, i - 1);
      assert wait[1..][i - 2] == wait[i - 1];
    }
  }

  ghost predicate WokenAt(set_: bv32, wait: seq<nat>, ts: seq<Thread<Request>>, i: nat)
    requires i < |wait|
  {
    Meets(SetAfter(set_, wait, ts, i), RequestOf(ts, wait[i]))
  }

  /** What one pass does to the i-th waiter. */
  ghost predicate PassAt(set_: bv32, wait: seq<nat>, ts: seq<Thread<Request>>, i: nat)
    requires i < |wait|
  {
    var p, t := Pass(set_, wait, ts), wait[i];
    && t < |ts| == |p.ts|
    && (t in p.wait <==> !WokenAt(set_, wait, ts, i))
    && p.ts[t] == if WokenAt(set_, wait, ts, i)
         then Wake(ts, t, Both(SetAfter(set_, wait, ts, i), RequestOf(ts, t).bits))[t] else ts[t]
  }

  /** The state of the pass behind its first waiter. */
  function First(set_: bv32, wait: seq<nat>, ts: seq<Thread<Request>>): State
    requires wait != []
  {
    var r := RequestOf(ts, wait[0]);
    if Meets(set_, r) then State(Rest(set_, r.bits, r.clear), wait[1..], Wake(ts, wait[0], Both(set_, r.bits)))
    else State(set_, wait[1..], ts)
  }

  lemma PassFirst(set_: bv32, wait: seq<nat>, ts: seq<Thread<Request>>)
    requires wait != [] && NoDup(wait) && Parked(State(set_, wait, ts))
    ensures var f, p := First(set_, wait, ts), Pass(set_, wait, ts);
      && var q := Pass(f.set_, f.wait, f.ts);
      && p.ts == q.ts && p.set_ == q.set_ && p.wait == if WokenAt(set_, wait, ts, 0) then q.wait else [wait[0]] + q.wait
  {
    hide Meets, Stored, Rest, Both, Less;
    var r := RequestOf(ts, wait[0]);
    if Meets(set_, r) { Residual(set_, r); }
    assert SetAfter(set_, wait, ts, 0) == set_;
  }

  /** What the first waiter leaves to the others. */
  lemma FirstLeaves(set_: bv32, wait: seq<nat>, ts: seq<Thread<Request>>)
    requires wait != [] && NoDup(wait) && Parked(State(set_, wait, ts))
    ensures var f := First(set_, wait, ts);
      && |f.ts| == |ts| && NoDup(f.wait) && Parked(f) && wait[0] !in f.wait
      && (forall x {:trigger x in f.wait} :: x in wait <==> x == wait[0] || x in f.wait)
      && (forall t {:trigger f.ts[t]} :: 0 <= t < |ts| && t != wait[0] ==> f.ts[t] == ts[t])
  {
    hide Meets, Stored, Rest, Both, Less, RequestOf;
    HeadGone(wait);
    var f := First(set_, wait, ts);
    forall j | 0 <= j < |f.wait|
      ensures f.wait[j] == wait[j + 1] && f.wait[j] != wait[0] && f.ts[f.wait[j]] == ts[f.wait[j]]
    {
    }
  }

  lemma FirstSets(set_: bv32, wait: seq<nat>, ts: seq<Thread<Request>>)
    requires wait != [] && NoDup(wait) && Parked(State(set_, wait, ts))
    ensures var f := First(set_, wait, ts);
      forall i {:trigger SetAfter(set_, wait, ts, i)} ::
          0 < i <= |wait| ==> SetAfter(f.set_, f.wait, f.ts, i - 1) == SetAfter(set_, wait, ts, i)
  {
    hide Meets, Stored, Rest, Both, Less;
    HeadGone(wait);
    var f, r := First(set_, wait, ts), RequestOf(ts, wait[0]);
    if Meets(set_, r) { Residual(set_, r); }
    assert SetAfter(set_, wait, ts, 0) == set_ && SetAfter(set_, wait, ts, 1) == f.set_;
    forall j | 0 <= j < |f.wait|
      ensures f.wait[j] == wait[j + 1] && f.wait[j] != wait[0] && f.ts[f.wait[j]] == ts[f.wait[j]]
    {
    }
    forall i | 0 < i <= |wait|
      ensures SetAfter(f.set_, f.wait, f.ts, i - 1) == SetAfter(set_, wait, ts, i)
    {
      SetAfterTail(set_, wait, ts, f.ts, i);
    }
  }

  /** The pass in front-to-back order is exactly as if every waiter in turn called
      rt_event_recv with timeout 0: the same threads succeed, they receive the same
      bits, and the same set is left. Earlier CLEAR waiters take bits from later ones. */
  lemma {:induction false} PassIsReceives(set_: bv32, wait: seq<nat>, ts: seq<Thread<Request>>)
    requires NoDup(wait) && Parked(State(set_, wait, ts))
    ensures var p := Pass(set_, wait, ts);
      && p.set_ == SetAfter(set_, wait, ts, |wait|) && |p.ts| == |ts|
      && NoDup(p.wait) && (forall x {:trigger x in p.wait} :: x in p.wait ==> x in wait)
      && (forall i {:trigger wait[i]} :: 0 <= i < |wait| ==> PassAt(set_, wait, ts, i))
      && (forall t {:trigger p.ts[t]} :: 0 <= t < |ts| && t !in wait ==> p.ts[t] == ts[t])
    decreases |wait|
  {
    hide Meets, Stored, Rest, Both, Less, Pass, SetAfter;
    if wait != [] {
      PassFirst(set_, wait, ts);
      FirstLeaves(set_, wait, ts);
      FirstSets(set_, wait, ts);
      var f := First(set_, wait, ts);
      PassIsReceives(f.set_, f.wait, f.ts);
      var p, q := Pass(set_, wait, ts), Pass(f.set_, f.wait, f.ts);
      if !WokenAt(set_, wait, ts, 0) {
        InsertMembers(q.wait, wait[0], 0);
        assert Insert(q.wait, wait[0], 0) == [wait[0]] + q.wait;
      }
      forall i | 0 <= i < |wait|
        ensures PassAt(set_, wait, ts, i)
      {
        if i == 0 { PassAtHead(set_, wait, ts); } else { PassAtTail(set_, wait, ts, i); }
      }
    } else {
      PassNone(set_, ts);
    }
  }

  lemma PassNone(set_: bv32, ts: seq<Thread<Request>>)
    ensures Pass(set_, [], ts) == State(set_, [], ts) && SetAfter(set_, [], ts, 0) == set_
  {
  }

  lemma PassAtHead(set_: bv32, wait: seq<nat>, ts: seq<Thread<Request>>)
    requires wait != [] && NoDup(wait) && Parked(State(set_, wait, ts))
    requires var f := First(set_, wait, ts); var q := Pass(f.set_, f.wait, f.ts);
      && |q.ts| == |ts| && (forall x {:trigger x in q.wait} :: x in q.wait ==> x in f.wait)
      && (forall t {:trigger q.ts[t]} :: 0 <= t < |ts| && t !in f.wait ==> q.ts[t] == f.ts[t])
    ensures PassAt(set_, wait, ts, 0)
  {
    hide Meets, Stored, Rest, Both, Less, Pass;
    PassFirst(set_, wait, ts);
    FirstLeaves(set_, wait, ts);
    FirstSets(set_, wait, ts);
  }

  lemma PassAtTail(set_: bv32, wait: seq<nat>, ts: seq<Thread<Request>>, i: nat)
    requires 0 < i < |wait| && NoDup(wait) && Parked(State(set_, wait, ts))
    requires var f := First(set_, wait, ts); |f.wait| == |wait| - 1 && PassAt(f.set_, f.wait, f.ts, i - 1)
    ensures PassAt(set_, wait, ts, i)
  {
    hide Meets, Stored, Rest, Both, Less, Pass, SetAfter;
    PassFirst(set_, wait, ts);
    FirstLeaves(set_, wait, ts);
    FirstSets(set_, wait, ts);
    var f := First(set_, wait, ts);
    assert f.wait[i - 1] == wait[i] && f.ts[wait[i]] == ts[wait[i]];
  }

  lemma TailWoken(set_: bv32, wait: seq<nat>, ts: seq<Thread<Request>>, k: nat)
    requires 0 < k < |wait| && NoDup(wait) && Parked(State(set_, wait, ts))
    ensures var f := First(set_, wait, ts);
      |f.wait| == |wait| - 1 && f.wait[k - 1] == wait[k]
          && (WokenAt(f.set_, f.wait, f.ts, k - 1) <==> WokenAt(set_, wait, ts, k))
  {
    hide Meets, Stored, Rest, Both, Less, SetAfter;
    FirstLeaves(set_, wait, ts);
    FirstSets(set_, wait, ts);
    assert First(set_, wait, ts).wait[k - 1] == wait[k];
  }

  lemma Stays(set_: bv32, wait: seq<nat>, ts: seq<Thread<Request>>, k: nat) returns (b: nat)
    requires NoDup(wait) && Parked(State(set_, wait, ts)) && k < |wait| && !WokenAt(set_, wait, ts, k)
    ensures var w := Pass(set_, wait, ts).wait; b < |w| && w[b] == wait[k]
  {
    hide Pass, WokenAt, Parked;
    PassIsReceives(set_, wait, ts);
    assert PassAt(set_, wait, ts, k);
    var w := Pass(set_, wait, ts).wait;
    var i :| 0 <= i < |w| && w[i] == wait[k];
    b := i;
  }

  /** Waiters that stay keep their order. */
  lemma {:induction false} PassKeepsOrder(set_: bv32, wait: seq<nat>, ts: seq<Thread<Request>>, i: nat, j: nat)
      returns (a: nat, b: nat)
    requires NoDup(wait) && Parked(State(set_, wait, ts)) && i < j < |wait|
    requires !WokenAt(set_, wait, ts, i) && !WokenAt(set_, wait, ts, j)
    ensures var w := Pass(set_, wait, ts).wait; a < b < |w| && w[a] == wait[i] && w[b] == wait[j]
    decreases |wait|
  {
    hide Pass, First, WokenAt, Parked;
    PassFirst(set_, wait, ts);
    FirstLeaves(set_, wait, ts);
    TailWoken(set_, wait, ts, j);
    var f := First(set_, wait, ts);
    if i > 0 {
      TailWoken(set_, wait, ts, i);
      a, b := PassKeepsOrder(f.set_, f.wait, f.ts, i - 1, j - 1);
    } else {
      a := 0;
      b := Stays(f.set_, f.wait, f.ts, j - 1);
    }
    if !WokenAt(set_, wait, ts, 0) { a, b := if i > 0 then a + 1 else 0, b + 1; }
  }

  /** SetAfter and WokenAt are rt_event_recv itself, called with timeout 0 on the set
      at that point. */
  lemma TryIsReceive(s: State, i: nat, t: nat, e: Env)
    requires InRange(s.wait, |s.ts|) && i < |s.wait| && t < |s.ts| == |e.prio| && RequestOf(s.ts, s.wait[i]).bits != 0
    ensures var before := s.(set_ := SetAfter(s.set_, s.wait, s.ts, i));
      && var (after, o) := RecvEnter(before, t, RequestOf(s.ts, s.wait[i]), 0, e);
      && after.set_ == SetAfter(s.set_, s.wait, s.ts, i + 1)
      && o == if WokenAt(s.set_, s.wait, s.ts, i) then Received(Both(before.set_, RequestOf(s.ts, s.wait[i]).bits))
          else Returned(ETIMEOUT)
  {
    hide Meets, Rest, Both;
  }

  /** The first waiter that a send satisfies. */
  ghost predicate FirstMet(set_: bv32, wait: seq<nat>, ts: seq<Thread<Request>>, k: nat) {
    && k < |wait| && Meets(set_, RequestOf(ts, wait[k]))
    && forall i {:trigger wait[i]} :: 0 <= i < k ==> !Meets(set_, RequestOf(ts, wait[i]))
  }

  lemma {:induction false} Untouched(set_: bv32, wait: seq<nat>, ts: seq<Thread<Request>>, k: nat)
    requires k <= |wait| && forall i {:trigger wait[i]} :: 0 <= i < k ==> !Meets(set_, RequestOf(ts, wait[i]))
    ensures SetAfter(set_, wait, ts, k) == set_
  {
    hide Meets, Rest;
    if k > 0 {
      Untouched(set_, wait, ts, k - 1);
      assert !Meets(set_, RequestOf(ts, wait[k - 1]));
    }
  }

  /** It wakes with the bits an immediate receive on the new set would have returned,
      and leaves to the waiters behind it the set that receive would have left. */
  lemma FirstWokenReceives(s: State, bits: bv32, k: nat, t: nat, e: Env)
    requires Inv(s) && bits != 0 && t < |s.ts| == |e.prio| && FirstMet(s.set_ | bits, s.wait, s.ts, k)
    ensures var now := s.(set_ := s.set_ | bits);
      && var (after, o) := RecvEnter(now, t, s.ts[s.wait[k]].phase.call, 0, e);
      && o.Received? && after.set_ == SetAfter(now.set_, s.wait, s.ts, k + 1)
      && |Send(s, bits).0.ts| == |s.ts|
      && var w := Send(s, bits).0.ts[s.wait[k]];
      && w.phase.Ready? && w.error == EOK && Received(w.phase.call.bits) == o
  {
    hide Meets, Both, Rest, Pass;
    var set1 := s.set_ | bits;
    assert s.wait[k] in s.wait;
    InvParks(s, set1);
    Untouched(set1, s.wait, s.ts, k);
    PassIsReceives(set1, s.wait, s.ts);
    assert PassAt(set1, s.wait, s.ts, k);
    TryIsReceive(s.(set_ := set1), k, t, e);
  }

  lemma InvParks(s: State, set1: bv32)
    requires Waiting(s)
    ensures Parked(State(set1, s.wait, s.ts))
  {
    forall i | 0 <= i < |s.wait|
      ensures s.ts[s.wait[i]].phase.Blocked?
    {
      assert s.wait[i] in s.wait;
    }
  }

  // ---------------------------------------------------------------- steps keep the invariant

  lemma {:induction false} SetShrinks(set_: bv32, wait: seq<nat>, ts: seq<Thread<Request>>, i: nat, n: nat, r: Request)
    requires i <= n <= |wait|
    ensures Meets(SetAfter(set_, wait, ts, n), r) ==> Meets(SetAfter(set_, wait, ts, i), r)
  {
    hide Meets, Less;
    if i < n {
      SetShrinks(set_, wait, ts, i, n - 1, r);
      FewerBits(SetAfter(set_, wait, ts, n - 1), RequestOf(ts, wait[n - 1]).bits, r);
    }
  }

  lemma AfterPass(s: State, set1: bv32, t: nat)
    requires Inv(s) && t < |s.ts| && Parked(State(set1, s.wait, s.ts))
    ensures var p := Pass(set1, s.wait, s.ts);
      && |p.ts| == |s.ts|
      && (t in p.wait <==> p.ts[t].phase.Blocked?)
      && (p.ts[t].phase.Blocked? ==> p.ts[t] == s.ts[t] && !Meets(p.set_, p.ts[t].phase.call))
  {
    hide Meets, Both, Pass, SetAfter;
    PassIsReceives(set1, s.wait, s.ts);
    var p := Pass(set1, s.wait, s.ts);
    if t in s.wait {
      var i :| 0 <= i < |s.wait| && s.wait[i] == t;
      assert PassAt(set1, s.wait, s.ts, i);
      SetShrinks(set1, s.wait, s.ts, i, |s.wait|, s.ts[t].phase.call);
    } else {
      assert s.ts[t] == p.ts[t];
    }
  }

  lemma PassShape(s: State, set1: bv32)
    requires NoDup(s.wait) && Parked(State(set1, s.wait, s.ts))
    ensures var p := Pass(set1, s.wait, s.ts); NoDup(p.wait) && InRange(p.wait, |s.ts|) && |p.ts| == |s.ts|
  {
    hide Meets, Both, Pass, PassAt;
    PassIsReceives(set1, s.wait, s.ts);
    AllInRange(Pass(set1, s.wait, s.ts).wait, s.wait, |s.ts|);
  }

  lemma PassKeeps(s: State, set1: bv32)
    requires Inv(s)
    ensures Inv(Pass(set1, s.wait, s.ts))
  {
    hide Meets, Both, Pass, Parked, NoDup, InRange;
    InvParks(s, set1);
    PassShape(s, set1);
    var p := Pass(set1, s.wait, s.ts);
    forall t | 0 <= t < |p.ts|
      ensures t in p.wait <==> p.ts[t].phase.Blocked?
      ensures p.ts[t].phase.Blocked? ==>
          p.ts[t].error == EOK && p.ts[t].phase.call.bits != 0 && !Meets(p.set_, p.ts[t].phase.call)
    {
      AfterPass(s, set1, t);
      if p.ts[t].phase.Blocked? { assert p.ts[t] == s.ts[t]; }
    }
  }

  lemma SendKeeps(s: State, bits: bv32)
    requires Inv(s)
    ensures Inv(Send(s, bits).0)
  {
    hide Pass, Inv;
    PassKeeps(s, s.set_ | bits);
  }

  lemma RecvEnterKeeps(s: State, t: nat, r: Request, timeout: int, e: Env)
    requires Inv(s) && t < |s.ts| == |e.prio| && s.ts[t].phase.Idle?
    ensures Inv(RecvEnter(s, t, r, timeout, e).0)
  {
    hide Meets, Less;
    EnqueueMembers(s.wait, t, e.prio, e.flag);
    forall u | 0 <= u < |s.ts| && s.ts[u].phase.Blocked?
      ensures !Meets(Less(s.set_, r.bits), s.ts[u].phase.call)
    {
      FewerBits(s.set_, r.bits, s.ts[u].phase.call);
    }
  }

  lemma TimedOutKeeps(s: State, t: nat)
    requires Inv(s) && t < |s.ts| && s.ts[t].phase.Blocked?
    ensures Inv(TimedOut(s, t))
  {
    hide Meets;
    WithoutMembers(s.wait, t);
    AllInRange(Without(s.wait, t), s.wait, |s.ts|);
  }

  lemma ResetKeeps(s: State)
    requires Inv(s)
    ensures Inv(Reset(s))
    ensures forall t {:trigger s.ts[t]} ::
        0 <= t < |s.ts| && s.ts[t].phase.Blocked? ==> Reset(s).ts[t].phase.Ready? && Reset(s).ts[t].error == ERROR
  {
    hide Meets;
    forall t | 0 <= t < |s.ts|
      ensures Reset(s).ts[t] == if t in s.wait
          then Thread(ERROR, Ready(s.ts[t].phase.call, s.ts[t].phase.timeout, s.ts[t].phase.start)) else s.ts[t]
    {
      ResumeAllAt(s.ts, s.wait, t);
    }
  }

  // ---------------------------------------------------------------- every interleaving

  datatype Action = SendCall(bits: bv32) | RecvCall(t: nat, r: Request, timeout: int) | Runs(t: nat) | Timer(t: nat)
      | ResetCall

  predicate Enabled(s: State, a: Action, e: Env) {
    && |e.prio| == |s.ts|
    && match a
       case RecvCall(t, r, _) => t < |s.ts| && s.ts[t].phase.Idle? && (r.all || r.any)
       case Runs(t) => t < |s.ts| && s.ts[t].phase.Ready?
       case Timer(t) => t < |s.ts| && s.ts[t].phase.Blocked? && s.ts[t].phase.timeout > 0
       case _ => true
  }

  function Step(s: State, a: Action, e: Env): State
    requires InRange(s.wait, |s.ts|) && Enabled(s, a, e)
  {
    match a
    case SendCall(bits) => Send(s, bits).0
    case RecvCall(t, r, timeout) => RecvEnter(s, t, r, timeout, e).0
    case Runs(t) => Rerun(s, t).0
    case Timer(t) => TimedOut(s, t)
    case ResetCall => Reset(s)
  }

  lemma StepKeeps(s: State, a: Action, e: Env)
    requires Inv(s) && Enabled(s, a, e)
    ensures Inv(Step(s, a, e))
  {
    hide Meets, Send, RecvEnter, TimedOut, Reset;
    match a
    case SendCall(bits) => SendKeeps(s, bits);
    case RecvCall(t, r, timeout) => RecvEnterKeeps(s, t, r, timeout, e);
    case Runs(t) =>
    case Timer(t) => TimedOutKeeps(s, t);
    case ResetCall => ResetKeeps(s);
  }

  ghost function Run(s: State, steps: seq<(Action, Env)>): (r: State)
    requires Inv(s)
    decreases |steps|
  {
    if steps == [] then s
    else if !Enabled(s, steps[0].0, steps[0].1) then Run(s, steps[1..])
    else
      StepKeeps(s, steps[0].0, steps[0].1);
      Run(Step(s, steps[0].0, steps[0].1), steps[1..])
  }

  /** In every reachable state no waiting thread's condition holds on the current
      set, and the wait list holds exactly the blocked threads. */
  lemma {:induction false} NobodyWaitsInVain(s: State, steps: seq<(Action, Env)>)
    requires Inv(s)
    ensures Inv(Run(s, steps))
    decreases |steps|
  {
    hide Unmet;
    if steps != [] {
      if Enabled(s, steps[0].0, steps[0].1) {
        StepKeeps(s, steps[0].0, steps[0].1);
        NobodyWaitsInVain(Step(s, steps[0].0, steps[0].1), steps[1..]);
      } else {
        NobodyWaitsInVain(s, steps[1..]);
      }
    }
  }

  function Initial(threads: nat): State { State(0, [], seq(threads, _ => Thread(EOK, Idle))) }

  lemma InitialKeeps(threads: nat)
    ensures Inv(Initial(threads)) && Initial(threads).set_ == 0
  {
  }
}
