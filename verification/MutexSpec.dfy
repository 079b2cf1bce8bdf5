/** rt-thread/src/ipc.c, mutexes: the atomic steps of rt_mutex_take, rt_mutex_release
    and the thread timeout, with priority inheritance, and what every interleaving of
    them keeps. One mutex, and nothing else changes priorities meanwhile. */
module MutexSpec {
  import opened Common
  import opened IpcWait
  import opened Lists

  /** A waiting rt_mutex_take has nothing to remember. */
  type Call = ()

  const NO_PRIORITY: nat := 0xFF
  const HOLD_RANGE: nat := 0x100       // hold is a rt_uint8_t

  /** prio is the current_priority of every thread: lower is more urgent. */
  datatype State = State(value: nat, owner: Option<nat>, original: nat, hold: nat,
                         wait: seq<nat>, ts: seq<Thread<Call>>, prio: seq<nat>)

  datatype Outcome = Returned(code: Code) | Waits

  predicate Shaped(s: State) {
    && |s.prio| == |s.ts| && InRange(s.wait, |s.ts|)
    && (s.owner.Some? ==> s.owner.value < |s.ts|)
    && (s.value == 0 ==> s.owner.Some?)
  }

  /** The owner inherits the priority of a thread that starts to wait. */
  function Inherit(s: State, t: nat): seq<nat>
    requires Shaped(s) && s.owner.Some? && t < |s.ts|
  {
    var o := s.owner.value;
    if s.prio[t] < s.prio[o] then s.prio[o := s.prio[t]] else s.prio
  }

  /** rt_mutex_take up to its return or rt_schedule. */
  function TakeEnter(s: State, t: nat, timeout: int, flag: Flag): (State, Outcome)
    requires Shaped(s) && t < |s.ts|
  {
    var ok := s.ts[t := s.ts[t].(error := EOK)];
    if s.owner == Some(t) then (s.(hold := (s.hold + 1) % HOLD_RANGE, ts := ok), Returned(EOK))
    else if s.value > 0 then
      (s.(value := s.value - 1, owner := Some(t), original := s.prio[t], hold := (s.hold + 1) % HOLD_RANGE, ts := ok),
          Returned(EOK))
    else if timeout == 0 then (s.(ts := s.ts[t := s.ts[t].(error := ETIMEOUT)]), Returned(ETIMEOUT))
    else
      var prio1 := Inherit(s, t);
      (s.(prio := prio1, wait := Enqueue(s.wait, t, prio1, flag),
          ts := s.ts[t := Thread(EOK, Blocked((), timeout, 0))]), Waits)
  }

  /** A resumed thread runs on behind its rt_schedule call. */
  function Rerun(s: State, t: nat): (State, Outcome)
    requires t < |s.ts| && s.ts[t].phase.Ready?
  {
    (s.(ts := s.ts[t := s.ts[t].(phase := Idle)]), Returned(s.ts[t].error))
  }

  /** The owner's last release: priority restored, then hand-off or unlock. */
  function LastRelease(s: State): State
    requires Shaped(s) && s.owner.Some?
  {
    var prio1 := s.prio[s.owner.value := s.original];
    if s.wait == [] then s.(value := s.value + 1, owner := None, original := NO_PRIORITY, hold := 0, prio := prio1)
    else
      s.(owner := Some(s.wait[0]), original := prio1[s.wait[0]], hold := 1, prio := prio1,
         wait := s.wait[1..], ts := Resume(s.ts, s.wait[0]))
  }

  function Release(s: State, t: nat): (State, Outcome)
    requires Shaped(s) && t < |s.ts|
  {
    if s.owner != Some(t) then (s.(ts := s.ts[t := s.ts[t].(error := ERROR)]), Returned(ERROR))
    else
      var hold1 := (s.hold + HOLD_RANGE - 1) % HOLD_RANGE;
      (if hold1 == 0 then LastRelease(s) else s.(hold := hold1), Returned(EOK))
  }

  function TimedOut(s: State, t: nat): State {
    s.(wait := Without(s.wait, t), ts := ResumeWith(s.ts, t, ETIMEOUT))
  }

  // ---------------------------------------------------------------- the invariants

  /** value and owner tell the same story, and nobody waits or holds without an owner. */
  ghost predicate Coherent(s: State) {
    && s.hold < HOLD_RANGE
    && (s.value == 1 <==> s.owner.None?) && (s.value == 0 <==> s.owner.Some?)
    && (s.owner.None? ==> s.hold == 0)
    && (s.wait != [] ==> s.owner.Some?)
  }

  /** The counter knows that there is an owner. */
  predicate Counted(s: State) { s.owner.Some? ==> s.hold > 0 }

  ghost predicate Waiting(s: State) {
    && NoDup(s.wait)
    && forall t {:trigger s.ts[t]} :: 0 <= t < |s.ts| ==>
         && (t in s.wait <==> s.ts[t].phase.Blocked?)
         && (s.ts[t].phase.Blocked? ==> s.ts[t].error == EOK && s.owner != Some(t))
         && (s.ts[t].phase.Ready? && s.ts[t].error == EOK ==> s.owner == Some(t))
  }

  /** Every thread but the owner runs at its own priority; the owner may run at a more
      urgent one, and the mutex remembers what to go back to. */
  ghost predicate Restorable(s: State, base: seq<nat>) {
    && |base| == |s.prio|
    && (forall t {:trigger s.prio[t]} :: 0 <= t < |s.prio| && s.owner != Some(t) ==> s.prio[t] == base[t])
    && (s.owner.Some? && s.owner.value < |base| ==>
        s.original == base[s.owner.value] && s.prio[s.owner.value] <= base[s.owner.value])
  }

  /** What every step keeps, even one that overflows the hold counter. */
  ghost predicate Steady(s: State, base: seq<nat>) {
    Shaped(s) && Coherent(s) && Waiting(s) && Restorable(s, base)
  }

  ghost predicate Inv(s: State, base: seq<nat>) { Steady(s, base) && Counted(s) }

  /** No waiter is more urgent than the owner. */
  ghost predicate Covers(s: State)
    requires Shaped(s)
  {
    s.owner.Some? ==> forall i {:trigger s.wait[i]} :: 0 <= i < |s.wait| ==> s.prio[s.owner.value] <= s.prio[s.wait[i]]
  }

  /** The owner is no more urgent than it or one of the waiters deserves. */
  ghost predicate Deserved(s: State, base: seq<nat>)
    requires Shaped(s) && |base| == |s.prio|
  {
    s.owner.Some? ==> s.prio[s.owner.value] == base[s.owner.value]
                      || exists i {:trigger s.wait[i]} ::
                          0 <= i < |s.wait| && s.prio[s.owner.value] == s.prio[s.wait[i]]
  }

  /** What a PRIO mutex keeps on top. */
  ghost predicate Fair(s: State) {
    Shaped(s) && SortedBy(s.wait, s.prio) && Covers(s)
  }

  // ---------------------------------------------------------------- steps

  /** A take by the owner fits into the hold counter; any other take does. */
  predicate HasRoom(s: State, t: nat) { s.owner == Some(t) ==> s.hold < HOLD_RANGE - 1 }

  /** A take leaves the counter right exactly while it has room: at 255 it wraps to 0 with
      the owner still set. */
  lemma RetakeIff(s: State, t: nat, timeout: int, flag: Flag)
    requires Shaped(s) && Coherent(s) && Counted(s) && t < |s.ts|
    ensures Counted(TakeEnter(s, t, timeout, flag).0) <==> HasRoom(s, t)
  {
    if s.hold < HOLD_RANGE - 1 { assert (s.hold + 1) % HOLD_RANGE == s.hold + 1; }
  }

  lemma TakeKeeps(s: State, t: nat, timeout: int, flag: Flag, base: seq<nat>)
    requires Steady(s, base) && t < |s.ts| && s.ts[t].phase.Idle?
    ensures Steady(TakeEnter(s, t, timeout, flag).0, base)
  {
    if s.owner != Some(t) && s.value == 0 && timeout != 0 {
      EnqueueMembers(s.wait, t, Inherit(s, t), flag);
    }
  }

  lemma HandOff(s: State, base: seq<nat>)
    requires Steady(s, base) && s.wait != []
    ensures var h := s.wait[0]; h < |s.ts| && s.ts[h].phase.Blocked? && s.owner != Some(h) && s.prio[h] == base[h]
    ensures NoDup(s.wait[1..]) && InRange(s.wait[1..], |s.ts|)
    ensures forall x {:trigger x in s.wait[1..]} :: x in s.wait[1..] <==> x in s.wait && x != s.wait[0]
  {
    HeadGone(s.wait);
    assert s.wait[0] in s.wait;
    AllInRange(s.wait[1..], s.wait, |s.ts|);
  }

  lemma ReleaseKeeps(s: State, t: nat, base: seq<nat>)
    requires Steady(s, base) && t < |s.ts| && s.ts[t].phase.Idle?
    ensures Steady(Release(s, t).0, base)
  {
    if s.owner == Some(t) && s.hold == 1 && s.wait != [] { HandOff(s, base); }
  }

  lemma TimedOutKeeps(s: State, t: nat, base: seq<nat>)
    requires Steady(s, base) && t < |s.ts| && s.ts[t].phase.Blocked?
    ensures Steady(TimedOut(s, t), base)
  {
    WithoutMembers(s.wait, t);
    AllInRange(Without(s.wait, t), s.wait, |s.ts|);
  }

  // ---------------------------------------------------------------- inheritance

  lemma TakeFair(s: State, t: nat, timeout: int, base: seq<nat>)
    requires Steady(s, base) && Fair(s) && t < |s.ts| && s.ts[t].phase.Idle?
    ensures Fair(TakeEnter(s, t, timeout, PRIO).0)
  {
    if s.owner != Some(t) && s.value == 0 && timeout != 0 {
      var prio1 := Inherit(s, t);
      forall i | 0 <= i < |s.wait|
        ensures prio1[s.wait[i]] == s.prio[s.wait[i]]
      {
        assert s.wait[i] in s.wait && s.ts[s.wait[i]] == s.ts[s.wait[i]];
      }
      EnqueueSorted(s.wait, t, prio1);
    }
  }

  /** After the last release the new owner is at least as urgent as every waiter
      exactly when the head of the list was. */
  lemma HandOffIff(s: State, t: nat, base: seq<nat>)
    requires Steady(s, base) && t < |s.ts| && s.owner == Some(t) && s.hold == 1 && s.wait != []
    ensures var s1 := Release(s, t).0;
      && Shaped(s1) && s1.owner == Some(s.wait[0])
      && (Covers(s1) <==> forall i {:trigger s.wait[i]} :: 0 <= i < |s.wait| ==> s.prio[s.wait[0]] <= s.prio[s.wait[i]])
  {
    HandOff(s, base);
    var s1 := Release(s, t).0;
    forall i | 0 <= i < |s.wait|
      ensures s1.prio[s.wait[i]] == s.prio[s.wait[i]] && (i > 0 ==> s1.wait[i - 1] == s.wait[i])
    {
      assert s.wait[i] in s.wait && s.ts[s.wait[i]] == s.ts[s.wait[i]];
    }
    forall i | 0 <= i < |s1.wait|
      ensures s1.wait[i] == s.wait[i + 1]
    {
    }
  }

  lemma ReleaseFair(s: State, t: nat, base: seq<nat>)
    requires Steady(s, base) && Fair(s) && t < |s.ts| && s.ts[t].phase.Idle?
    ensures Fair(Release(s, t).0)
  {
    if s.owner == Some(t) && s.hold == 1 && s.wait != [] {
      HandOffIff(s, t, base);
      var s1 := Release(s, t).0;
      forall i | 0 <= i < |s1.wait|
        ensures s1.wait[i] == s.wait[i + 1] && s1.prio[s1.wait[i]] == s.prio[s.wait[i + 1]]
      {
        assert s.wait[i + 1] in s.wait && s.ts[s.wait[i + 1]] == s.ts[s.wait[i + 1]];
      }
    }
  }

  lemma {:induction false} WithoutSorted(list: seq<nat>, t: nat, prio: seq<nat>)
    requires InRange(list, |prio|) && SortedBy(list, prio)
    ensures InRange(Without(list, t), |prio|) && SortedBy(Without(list, t), prio)
  {
    if list != [] {
      var rest := Without(list[1..], t);
      WithoutSorted(list[1..], t, prio);
      forall i | 0 <= i < |rest|
        ensures prio[list[0]] <= prio[rest[i]]
      {
        HeadFirst(list, t, prio, i);
      }
    }
  }

  lemma HeadFirst(list: seq<nat>, t: nat, prio: seq<nat>, i: nat)
    requires InRange(list, |prio|) && SortedBy(list, prio) && list != [] && i < |Without(list[1..], t)|
    ensures Without(list[1..], t)[i] in list
    ensures Without(list[1..], t)[i] < |prio| && prio[list[0]] <= prio[Without(list[1..], t)[i]]
  {
    var x := Without(list[1..], t)[i];
    WithoutMembers(list[1..], t);
    assert x in Without(list[1..], t);
    var j :| 0 <= j < |list[1..]| && list[1..][j] == x;
    assert list[j + 1] == x;
  }

  lemma TimedOutFair(s: State, t: nat, base: seq<nat>)
    requires Steady(s, base) && Fair(s) && t < |s.ts| && s.ts[t].phase.Blocked?
    ensures Fair(TimedOut(s, t))
  {
    var s1 := TimedOut(s, t);
    WithoutMembers(s.wait, t);
    WithoutSorted(s.wait, t, s.prio);
    forall i | 0 <= i < |s1.wait| && s.owner.Some?
      ensures s.prio[s.owner.value] <= s.prio[s1.wait[i]]
    {
      assert s1.wait[i] in s1.wait;
      var j :| 0 <= j < |s.wait| && s.wait[j] == s1.wait[i];
    }
  }

  /** Without t, the owner still has a reason for its priority: it is its own, or that of
      another waiter. */
  ghost predicate Backed(s: State, t: nat, base: seq<nat>)
    requires Shaped(s) && |base| == |s.prio|
  {
    s.owner.Some? ==>
      || s.prio[s.owner.value] == base[s.owner.value]
      || exists i {:trigger s.wait[i]} ::
          0 <= i < |s.wait| && s.wait[i] != t && s.prio[s.wait[i]] == s.prio[s.owner.value]
  }

  /** When t gives up waiting, the owner's priority stays deserved exactly if it was backed
      without t: nothing gives back what was inherited from t. */
  lemma TimedOutIff(s: State, t: nat, base: seq<nat>)
    requires Steady(s, base) && t < |s.ts| && s.ts[t].phase.Blocked?
    ensures var s1 := TimedOut(s, t);
      Shaped(s1) && |s1.prio| == |base| && (Deserved(s1, base) <==> Backed(s, t, base))
  {
    var s1 := TimedOut(s, t);
    TimedOutKeeps(s, t, base);
    WithoutMembers(s.wait, t);
    forall i | 0 <= i < |s.wait| && s.wait[i] != t
      ensures s.wait[i] in s1.wait
    {
      assert s.wait[i] in s.wait;
    }
    forall i | 0 <= i < |s1.wait|
      ensures s1.wait[i] in s.wait && s1.wait[i] != t
    {
      assert s1.wait[i] in s1.wait;
    }
  }

  /** A take keeps the owner at no more than it deserves. */
  lemma TakeDeserved(s: State, t: nat, timeout: int, flag: Flag, base: seq<nat>)
    requires Steady(s, base) && Deserved(s, base) && t < |s.ts| && s.ts[t].phase.Idle?
    ensures var s1 := TakeEnter(s, t, timeout, flag).0; Shaped(s1) && |s1.prio| == |base| && Deserved(s1, base)
  {
    TakeKeeps(s, t, timeout, flag, base);
    if s.owner != Some(t) && s.value == 0 && timeout != 0 { JoinDeserved(s, t, timeout, flag, base); }
  }

  /** One more waiter, from whom the owner may have inherited. */
  lemma JoinDeserved(s: State, t: nat, timeout: int, flag: Flag, base: seq<nat>)
    requires Steady(s, base) && Deserved(s, base) && t < |s.ts| && s.ts[t].phase.Idle?
    requires s.owner != Some(t) && s.value == 0 && timeout != 0
    ensures var s1 := TakeEnter(s, t, timeout, flag).0; Shaped(s1) && |s1.prio| == |base| && Deserved(s1, base)
  {
    hide Slot;
    TakeKeeps(s, t, timeout, flag, base);
    var s1, o, k := TakeEnter(s, t, timeout, flag).0, s.owner.value, Slot(s.wait, t, Inherit(s, t), flag);
    assert s1.wait[k] == t;
    if s1.prio[o] != base[o] && s1.prio[o] != s1.prio[t] {
      var i :| 0 <= i < |s.wait| && s.prio[o] == s.prio[s.wait[i]];
      assert s.wait[i] in s.wait && s.ts[s.wait[i]] == s.ts[s.wait[i]];
      assert s1.wait[if i < k then i else i + 1] == s.wait[i];
    }
  }

  lemma ReleaseDeserved(s: State, t: nat, base: seq<nat>)
    requires Steady(s, base) && Deserved(s, base) && t < |s.ts| && s.ts[t].phase.Idle?
    ensures var s1 := Release(s, t).0; Shaped(s1) && |s1.prio| == |base| && Deserved(s1, base)
  {
    ReleaseKeeps(s, t, base);
    if s.owner == Some(t) && s.hold == 1 && s.wait != [] { HandOff(s, base); }
  }
}
