/** rt-thread/src/ipc.c, event flags: what a call returns, what it leaves and whom it wakes,
    bit by bit. */
module EventTheorems {
  import opened Common
  import opened IpcWait
  import opened Lists
  import opened EventSpec

  /** Bit k of a set. */
  predicate Has(x: bv32, k: bv32) { k < 32 && (x >> k) & 1 == 1 }

  /** With AND every bit of interest is set; with OR some bit of interest is. */
  ghost predicate Holds(set_: bv32, r: Request) {
    if r.all then forall k :: Has(r.bits, k) ==> Has(set_, k) else r.any && exists k :: Has(r.bits, k) && Has(set_, k)
  }

  /** A receive of r got the bits of interest that were set, and left all others; the ones
      of interest are gone if CLEAR was asked for. */
  ghost predicate Takes(before: bv32, r: Request, got: bv32, after: bv32) {
    && (forall k :: Has(got, k) <==> Has(before, k) && Has(r.bits, k))
    && (forall k :: Has(after, k) <==> Has(before, k) && !(r.clear && Has(r.bits, k)))
  }

  lemma BitOps(a: bv32, b: bv32, k: bv32)
    ensures Has(a & b, k) <==> Has(a, k) && Has(b, k)
    ensures Has(a & !b, k) <==> Has(a, k) && !Has(b, k)
  {
  }

  lemma {:induction false} SomeBit(m: bv32) returns (k: bv32)
    requires m != 0
    ensures Has(m, k)
    decreases m
  {
    if m & 1 == 1 {
      k := 0;
    } else {
      Half(m);
      k := SomeBit(m >> 1);
      Double(m, k);
      k := k + 1;
    }
  }

  lemma Half(m: bv32)
    requires m != 0
    ensures m >> 1 < m && (m & 1 != 1 ==> m >> 1 != 0)
  {
  }

  lemma Double(m: bv32, k: bv32)
    requires Has(m >> 1, k)
    ensures Has(m, k + 1)
  {
  }

  lemma NoBit(k: bv32)
    ensures !Has(0, k)
  {
  }

  lemma Parts(a: bv32, b: bv32)
    ensures (a & b) | (b & !a) == b
  {
  }

  lemma NothingMissing(a: bv32, b: bv32)
    requires b & !a == 0
    ensures a & b == b
  {
    Parts(a, b);
  }

  lemma MeetsMeans(set_: bv32, r: Request)
    ensures Meets(set_, r) <==> Holds(set_, r)
  {
    hide Has;
    if r.all { AllMeans(set_, r.bits); } else { AnyMeans(set_, r.bits); }
  }

  lemma AllMeans(a: bv32, b: bv32)
    ensures Both(a, b) == b <==> forall k :: Has(b, k) ==> Has(a, k)
  {
    hide Has;
    if b & !a != 0 {
      var k := SomeBit(b & !a);
      BitOps(b, a, k);
      BitOps(a, b, k);
    } else {
      NothingMissing(a, b);
      forall k | Has(b, k)
        ensures Has(a, k)
      {
        BitOps(b, a, k);
        NoBit(k);
      }
    }
  }

  lemma AnyMeans(a: bv32, b: bv32)
    ensures Both(a, b) != 0 <==> exists k :: Has(b, k) && Has(a, k)
  {
    hide Has;
    if a & b != 0 {
      var k := SomeBit(a & b);
      BitOps(a, b, k);
    } else {
      forall k
        ensures !(Has(b, k) && Has(a, k))
      {
        BitOps(a, b, k);
        NoBit(k);
      }
    }
  }

  lemma TakesMeans(set_: bv32, r: Request)
    ensures Takes(set_, r, Both(set_, r.bits), Rest(set_, r.bits, r.clear))
  {
    hide Has, Both, Rest;
    forall k
      ensures Has(Both(set_, r.bits), k) <==> Has(set_, k) && Has(r.bits, k)
      ensures Has(Rest(set_, r.bits, r.clear), k) <==> Has(set_, k) && !(r.clear && Has(r.bits, k))
    {
      TakenBit(set_, r, k);
    }
  }

  lemma TakenBit(set_: bv32, r: Request, k: bv32)
    ensures Has(Both(set_, r.bits), k) <==> Has(set_, k) && Has(r.bits, k)
    ensures Has(Rest(set_, r.bits, r.clear), k) <==> Has(set_, k) && !(r.clear && Has(r.bits, k))
  {
    hide Has;
    BitOps(set_, r.bits, k);
  }

  /** The verdict of rt_event_recv: an empty request is refused; one whose condition holds
      takes its bits; one that will not wait times out; any other joins the wait list and
      remembers the request. */
  lemma RecvVerdict(s: State, t: nat, r: Request, timeout: int, e: Env)
    requires Inv(s) && t < |s.ts| == |e.prio| && s.ts[t].phase.Idle?
    ensures var (s1, o) := RecvEnter(s, t, r, timeout, e);
      && OnlyThread(s.ts, s1.ts, t)
      && if r.bits == 0 then o == Returned(ERROR) && s1 == s
         else if Holds(s.set_, r) then
           && o.Received? && Takes(s.set_, r, o.bits, s1.set_) && s1.wait == s.wait && s1.ts[t].phase.Idle?
           && s1.ts[t].error == EOK
         else if timeout == 0 then
           && o == Returned(ETIMEOUT) && s1.set_ == s.set_ && s1.wait == s.wait && s1.ts[t].phase.Idle?
           && s1.ts[t].error == ETIMEOUT
         else
           && o == Waits && s1.set_ == s.set_ && FallsAsleep(s.ts, s1.ts, t, r, timeout, 0)
           && Joins(s.wait, s1.wait, t, e.prio, e.flag)
  {
    hide Meets, Holds, Takes, Both, Rest, Joins, Unmet, Enqueue;
    MeetsMeans(s.set_, r);
    TakesMeans(s.set_, r);
    EnqueueJoins(s.wait, t, e.prio, e.flag);
  }

  /** The verdict of a thread that was resumed: its error, or the bits stored for it. */
  lemma RerunVerdict(s: State, t: nat)
    requires Inv(s) && t < |s.ts| && s.ts[t].phase.Ready?
    ensures var (s1, o) := Rerun(s, t);
      && OnlyThread(s.ts, s1.ts, t) && s1.ts[t].phase.Idle? && s1.set_ == s.set_ && s1.wait == s.wait
      && o == if s.ts[t].error == EOK then Received(s.ts[t].phase.call.bits) else Returned(s.ts[t].error)
  {
  }

  /** Waiter i leaves with the bits it takes of what it is offered, or stays as it was. */
  ghost predicate Served(s: State, s1: State, i: nat, offer: bv32, rest: bv32)
    requires i < |s.wait| && InRange(s.wait, |s.ts|) && |s1.ts| == |s.ts|
  {
    var t := s.wait[i];
    var th, th1 := s.ts[t], s1.ts[t];
    if th.phase.Blocked? && Holds(offer, th.phase.call) then
      && t !in s1.wait && th1.phase.Ready? && th1.error == EOK && Takes(offer, th.phase.call, th1.phase.call.bits, rest)
    else t in s1.wait && th1 == th && rest == offer
  }

  /** Every waiter, front to back, is offered what those in front of it left; what the last
      one leaves is the set. Nobody else is touched. */
  ghost predicate AllServed(s: State, s1: State, sets: seq<bv32>) {
    && |sets| == |s.wait| + 1 && InRange(s.wait, |s.ts|) && |s1.ts| == |s.ts| && s1.set_ == sets[|s.wait|]
    && (forall i {:trigger s.wait[i]} :: 0 <= i < |s.wait| ==> Served(s, s1, i, sets[i], sets[i + 1]))
    && (forall t {:trigger s1.ts[t]} :: 0 <= t < |s.ts| && t !in s.wait ==> s1.ts[t] == s.ts[t])
  }

  /** The verdict of rt_event_send: no bits are an error; otherwise the set with the new
      bits is offered to the waiters in turn. */
  lemma SendVerdict(s: State, bits: bv32) returns (sets: seq<bv32>)
    requires Inv(s)
    ensures bits == 0 ==> Send(s, bits) == (s, Returned(ERROR))
    ensures bits != 0 ==>
      var (s1, o) := Send(s, bits);
      && o == Returned(EOK) && AllServed(s, s1, sets) && sets != []
      && forall k :: Has(sets[0], k) <==> Has(s.set_, k) || Has(bits, k)
  {
    hide Has, AllServed, Pass, Inv, Send, Union;
    SendIs(s, bits);
    UnionBits(s.set_, bits);
    sets := PassVerdict(s, Union(s.set_, bits));
  }

  function Union(a: bv32, b: bv32): bv32 { a | b }

  lemma UnionBit(a: bv32, b: bv32, k: bv32)
    ensures Has(Union(a, b), k) <==> Has(a, k) || Has(b, k)
  {
  }

  lemma UnionBits(a: bv32, b: bv32)
    ensures forall k :: Has(Union(a, b), k) <==> Has(a, k) || Has(b, k)
  {
    hide Has, Union;
    forall k
      ensures Has(Union(a, b), k) <==> Has(a, k) || Has(b, k)
    {
      UnionBit(a, b, k);
    }
  }

  lemma SendIs(s: State, bits: bv32)
    ensures bits == 0 ==> Send(s, bits) == (s, Returned(ERROR))
    ensures bits != 0 ==> Send(s, bits) == (Pass(Union(s.set_, bits), s.wait, s.ts), Returned(EOK))
  {
  }

  lemma PassVerdict(s: State, now: bv32) returns (sets: seq<bv32>)
    requires Inv(s)
    ensures sets != [] && sets[0] == now && AllServed(s, Pass(now, s.wait, s.ts), sets)
  {
    hide Has, Served, Pass, SetAfter, Meets, Both, Rest, PassAt, Unmet;
    var w := s.wait;
    sets := seq(|w| + 1, i requires 0 <= i <= |w| => SetAfter(now, w, s.ts, i));
    InvParks(s, now);
    PassIsReceives(now, w, s.ts);
    NoneYet(now, w, s.ts);
    forall i | 0 <= i < |w|
      ensures Served(s, Pass(now, w, s.ts), i, sets[i], sets[i + 1])
    {
      assert s.wait[i] in s.wait;
      OneServed(s, now, i);
    }
  }

  lemma NoneYet(set_: bv32, wait: seq<nat>, ts: seq<Thread<Request>>)
    ensures SetAfter(set_, wait, ts, 0) == set_
  {
  }

  lemma OneServed(s: State, now: bv32, i: nat)
    requires Inv(s) && i < |s.wait| && |Pass(now, s.wait, s.ts).ts| == |s.ts| && PassAt(now, s.wait, s.ts, i)
    ensures Served(s, Pass(now, s.wait, s.ts), i, SetAfter(now, s.wait, s.ts, i), SetAfter(now, s.wait, s.ts, i + 1))
  {
    hide Meets, Holds, Takes, Both, Rest, Pass, Unmet;
    var offer, t := SetAfter(now, s.wait, s.ts, i), s.wait[i];
    assert t in s.wait;
    var r := s.ts[t].phase.call;
    MeetsMeans(offer, r);
    TakesMeans(offer, r);
  }

  /** A timeout takes its thread off the wait list and gives it -RT_ETIMEOUT. */
  lemma TimesOut(s: State, t: nat)
    requires Inv(s) && t < |s.ts| && s.ts[t].phase.Blocked?
    ensures var s1 := TimedOut(s, t);
      WokeUp(s.ts, s1.ts, t, ETIMEOUT) && Leaves(s.wait, s1.wait, t) && s1.set_ == s.set_
  {
    hide Leaves, Unmet;
    WithoutLeaves(s.wait, t);
  }

  /** A reset leaves no bit and no waiter; everybody on the list goes on with -RT_ERROR, and
      nobody else is touched. */
  lemma ResetVerdict(s: State, t: nat)
    requires Inv(s) && t < |s.ts|
    ensures var s1 := Reset(s);
      && s1.wait == [] && (forall k :: !Has(s1.set_, k)) && |s1.ts| == |s.ts|
      && var th, th1 := s.ts[t], s1.ts[t];
      if th.phase.Blocked? then th1.phase.Ready? && th1.error == ERROR && th1.phase.call == th.phase.call else th1 == th
  {
    hide Meets;
    ResumeAllAt(s.ts, s.wait, t);
  }
}
