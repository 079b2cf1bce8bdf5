/** rt-thread/src/timer.c: one pass of the expiry loop, and whole runs. */
module TimerTheorems {
  import opened Bits
  import opened Common
  import opened Lists
  import opened TimerSpec

  /** What rt_timer_check may rely on at this time: no deadline missed by half the tick
      range or further than that ahead, and room for every period from now on. */
  ghost predicate Ready(s: State, clock: nat) {
    && RowIn(Bottom(s), s.ts)
    && (forall i {:trigger Bottom(s)[i]} :: 0 <= i < |Bottom(s)| ==>
          var tm := s.ts[Bottom(s)[i]];
          clock - tm.due < HALF && tm.due - clock < HALF && (tm.periodic ==> 0 < tm.init < HALF))
    && (forall i, j {:trigger Bottom(s)[i], Bottom(s)[j]} ::
        0 <= i < |Bottom(s)| && 0 <= j < |Bottom(s)| && s.ts[Bottom(s)[i]].periodic ==>
          clock + s.ts[Bottom(s)[i]].init - s.ts[Bottom(s)[j]].due < HALF)
  }

  /** How many timers at the front of the row have reached their deadline. */
  function DuePrefix(ts: seq<Timer>, row: seq<nat>, clock: nat, k: nat): (r: nat)
    requires RowIn(row, ts) && k <= |row|
    ensures k <= r <= |row|
    ensures r < |row| ==> ts[row[r]].due > clock
    ensures forall i {:trigger row[i]} :: k <= i < r ==> ts[row[i]].due <= clock
    decreases |row| - k
  {
    if k == |row| || ts[row[k]].due > clock then k else DuePrefix(ts, row, clock, k + 1)
  }

  lemma {:induction false} DuePrefixIs(ts: seq<Timer>, row: seq<nat>, clock: nat, n: nat)
    requires RowIn(row, ts) && n <= |row| && (n < |row| ==> ts[row[n]].due > clock)
    requires forall i {:trigger row[i]} :: 0 <= i < n ==> ts[row[i]].due <= clock
    ensures DuePrefix(ts, row, clock, 0) == n
  {
    var r := DuePrefix(ts, row, clock, 0);
    assert r < |row| ==> ts[row[r]].due > clock;
  }

  /** The modular expiry test is the true one. */
  lemma DueIs(s: State, clock: nat, i: nat)
    requires Inv(s) && Ready(s, clock) && i < |Bottom(s)|
    ensures Due(s.ts[Bottom(s)[i]], clock) <==> s.ts[Bottom(s)[i]].due <= clock
  {
    LaterIs(clock, s.ts[Bottom(s)[i]].due);
  }

  lemma HeadWithout(row: seq<nat>)
    requires NoDup(row) && row != []
    ensures Without(row, row[0]) == row[1..]
  {
    HeadGone(row);
    NoneWithout(row[1..], row[0]);
  }

  /** The first timer of the bottom row, unlinked. */
  lemma UnlinkHead(s: State)
    requires Inv(s) && Bottom(s) != []
    ensures var t := Bottom(s)[0];
      && t < |s.ts| && s.ts[t].active
      && Inv(Unlink(s, t)) && Bottom(Unlink(s, t)) == Bottom(s)[1..] && t !in Bottom(s)[1..]
  {
    hide Inv;
    var t := Bottom(s)[0];
    InvRows(s);
    HeadRuns(s);
    UnlinkKeeps(s, t);
    HeadWithout(Bottom(s));
    HeadGone(Bottom(s));
  }

  lemma HeadRuns(s: State)
    requires Inv(s) && Bottom(s) != []
    ensures var t := Bottom(s)[0]; t < |s.ts| && s.ts[t].active && NoDup(Bottom(s))
  {
    SortedNoDup(s.ts, Bottom(s));
    assert Bottom(s)[0] in Bottom(s);
  }

  lemma HeadCanRestart(s: State, clock: nat)
    requires Inv(s) && Ready(s, clock) && Bottom(s) != [] && s.ts[Bottom(s)[0]].due <= clock
        && s.ts[Bottom(s)[0]].periodic
    ensures var t := Bottom(s)[0]; t < |s.ts| && CanStart(Unlink(s, t), t, clock)
  {
    UnlinkHead(s);
    var t, b := Bottom(s)[0], Bottom(Unlink(s, Bottom(s)[0]));
    forall i | 0 <= i < |b| && b[i] != t
      ensures clock + s.ts[t].init - s.ts[b[i]].due < HALF && s.ts[b[i]].due - clock - s.ts[t].init < HALF
    {
      assert b[i] == Bottom(s)[i + 1];
    }
  }

  /** What one round does to the bottom row and to the timers. */
  lemma FireStep(s: State, clock: nat, mask: nat)
    requires Inv(s) && Ready(s, clock) && Bottom(s) != [] && RowIn(Bottom(s), s.ts) && s.ts[Bottom(s)[0]].due <= clock
    ensures RowsIn(s.rows, s.ts)
    ensures var s1, t, b := Fire(s, clock, mask), Bottom(s)[0], Bottom(s);
      && Inv(s1) && |s1.ts| == |s.ts|
      && var n := DuePrefix(s.ts, b, clock, 0);
      && n > 0 && n - 1 <= |Bottom(s1)| && Bottom(s1)[..n - 1] == b[1..n]
      && RowIn(Bottom(s1), s1.ts) && DuePrefix(s1.ts, Bottom(s1), clock, 0) == n - 1
      && (forall x {:trigger x in Bottom(s1)} :: x in Bottom(s1) <==> (x in b && (x == t ==> s.ts[t].periodic)))
    ensures Fired(s, Fire(s, clock, mask), clock)
  {
    hide Inv, Ready, Start, Unlink, DuePrefix, Fired;
    InvRows(s);
    if s.ts[Bottom(s)[0]].periodic { Rearm(s, clock, mask); } else { Drop(s, clock, mask); }
  }

  /** The timers after the first of them fired. */
  ghost predicate Fired(s: State, s1: State, clock: nat)
    requires Bottom(s) != []
  {
    var t := Bottom(s)[0];
    && |s1.ts| == |s.ts| && t < |s.ts|
    && (forall u {:trigger s1.ts[u]} :: 0 <= u < |s.ts| && u != t ==> s1.ts[u] == s.ts[u])
    && s1.ts[t] == (if s.ts[t].periodic
         then s.ts[t].(timeout := (clock + s.ts[t].init) % WORD_RANGE, due := clock + s.ts[t].init,
             active := true, serial := s.starts + 1)
         else s.ts[t].(active := false))
  }

  /** A one-shot is gone. */
  lemma Drop(s: State, clock: nat, mask: nat)
    requires Inv(s) && Bottom(s) != [] && RowIn(Bottom(s), s.ts) && RowsIn(s.rows, s.ts)
        && s.ts[Bottom(s)[0]].due <= clock && !s.ts[Bottom(s)[0]].periodic
    ensures var s1, t, b := Fire(s, clock, mask), Bottom(s)[0], Bottom(s);
      && Inv(s1) && |s1.ts| == |s.ts| && Fired(s, s1, clock)
      && var n := DuePrefix(s.ts, b, clock, 0);
      && n > 0 && n - 1 <= |Bottom(s1)| && Bottom(s1)[..n - 1] == b[1..n]
      && RowIn(Bottom(s1), s1.ts) && DuePrefix(s1.ts, Bottom(s1), clock, 0) == n - 1
      && (forall x {:trigger x in Bottom(s1)} :: x in Bottom(s1) <==> x in b && x != t)
  {
    hide Inv, DuePrefix;
    UnlinkHead(s);
    var t, b, s0 := Bottom(s)[0], Bottom(s), Unlink(s, Bottom(s)[0]);
    assert b == [t] + b[1..];
    PrefixTail(s.ts, s0.ts, b, clock);
  }

  lemma PrefixTail(ts: seq<Timer>, ts1: seq<Timer>, b: seq<nat>, clock: nat)
    requires RowIn(b, ts) && |ts1| == |ts| && b != [] && ts[b[0]].due <= clock && b[0] !in b[1..]
    requires forall u {:trigger ts1[u]} :: 0 <= u < |ts| && u != b[0] ==> ts1[u] == ts[u]
    ensures RowIn(b[1..], ts1)
    ensures var n := DuePrefix(ts, b, clock, 0);
      n > 0 && n - 1 <= |b[1..]| && b[1..][..n - 1] == b[1..n] && DuePrefix(ts1, b[1..], clock, 0) == n - 1
  {
    var r, n := b[1..], DuePrefix(ts, b, clock, 0);
    forall i | 0 <= i < |r|
      ensures r[i] == b[i + 1] && r[i] != b[0] && ts1[r[i]] == ts[b[i + 1]]
    {
      assert r[i] in r;
    }
    DuePrefixIs(ts1, r, clock, n - 1);
  }

  /** A periodic timer goes behind everything that is due. */
  lemma Rearm(s: State, clock: nat, mask: nat)
    requires Inv(s) && Ready(s, clock) && Bottom(s) != [] && RowIn(Bottom(s), s.ts) && RowsIn(s.rows, s.ts)
    requires s.ts[Bottom(s)[0]].due <= clock && s.ts[Bottom(s)[0]].periodic
    ensures var s1, t, b := Fire(s, clock, mask), Bottom(s)[0], Bottom(s);
      && Inv(s1) && |s1.ts| == |s.ts| && Fired(s, s1, clock)
      && var n := DuePrefix(s.ts, b, clock, 0);
      && n > 0 && n - 1 <= |Bottom(s1)| && Bottom(s1)[..n - 1] == b[1..n]
      && RowIn(Bottom(s1), s1.ts) && DuePrefix(s1.ts, Bottom(s1), clock, 0) == n - 1
      && (forall x {:trigger x in Bottom(s1)} :: x in Bottom(s1) <==> x in b)
  {
    hide Inv, Ready, DuePrefix, Slot, Fits, Fire, Fired;
    Restarted(s, clock, mask);
    var t, b, s1 := Bottom(s)[0], Bottom(s), Fire(s, clock, mask);
    PrefixTail(s.ts, s1.ts, b, clock);
    RearmedPrefix(s1.ts, b[1..], t, clock);
    InsertMembers(b[1..], t, Slot(s1.ts, b[1..], s1.ts[t].timeout, 0));
    assert b == [t] + b[1..];
    RearmedSplit(b, Bottom(s1), DuePrefix(s.ts, b, clock, 0));
  }

  lemma Restarted(s: State, clock: nat, mask: nat)
    requires Inv(s) && Ready(s, clock) && Bottom(s) != [] && RowIn(Bottom(s), s.ts) && RowsIn(s.rows, s.ts)
    requires s.ts[Bottom(s)[0]].due <= clock && s.ts[Bottom(s)[0]].periodic
    ensures var s1, t, b := Fire(s, clock, mask), Bottom(s)[0], Bottom(s);
      && Inv(s1) && Fired(s, s1, clock) && |s1.ts| == |s.ts| && t < |s1.ts| && t !in b[1..] && s1.ts[t].due > clock
      && (forall u {:trigger s1.ts[u]} :: 0 <= u < |s.ts| && u != t ==> s1.ts[u] == s.ts[u])
      && Fits(s1.ts, b[1..], t) && RowIn(b[1..], s1.ts) && RowIn(Bottom(s1), s1.ts)
      && Bottom(s1) == Insert(b[1..], t, Slot(s1.ts, b[1..], s1.ts[t].timeout, 0))
  {
    hide Inv, Slot, Height, RemoveRows, InsertRows, Near, Sorted;
    UnlinkHead(s);
    HeadCanRestart(s, clock);
    PeriodAhead(s, clock);
    hide Ready, Fits;
    var t, b, s0 := Bottom(s)[0], Bottom(s), Unlink(s, Bottom(s)[0]);
    InvRows(s0);
    StartKeeps(s0, t, clock, mask);
    StartBottom(s0, t, clock, mask);
    NoneWithout(b[1..], t);
    InvRows(Start(s0, t, clock, mask));
    RowReady(s0, t, clock, |s0.rows| - 1);
  }

  lemma RearmedSplit(b: seq<nat>, b1: seq<nat>, n: nat)
    requires 0 < n <= |b| && n - 1 <= |b1| && b1[..n - 1] == b[1..][..n - 1]
    ensures b1[..n - 1] == b[1..n]
  {
  }

  lemma PeriodAhead(s: State, clock: nat)
    requires Ready(s, clock) && Bottom(s) != []
    ensures s.ts[Bottom(s)[0]].periodic ==> s.ts[Bottom(s)[0]].init > 0
  {
  }

  lemma RearmedPrefix(ts: seq<Timer>, r: seq<nat>, t: nat, clock: nat)
    requires Fits(ts, r, t) && ts[t].due > clock
    ensures var n, k := DuePrefix(ts, r, clock, 0), Slot(ts, r, ts[t].timeout, 0);
            var r1 := Insert(r, t, k); n <= k && r1[..n] == r[..n] && RowIn(r1, ts) && DuePrefix(ts, r1, clock, 0) == n
  {
    var n, k := DuePrefix(ts, r, clock, 0), Slot(ts, r, ts[t].timeout, 0);
    SlotIs(ts, r, t, 0);
    var r1 := Insert(r, t, k);
    InsertIn(r, t, k, |ts|);
    DuePrefixIs(ts, r1, clock, n);
  }

  lemma FireReady(s: State, clock: nat, mask: nat)
    requires Inv(s) && Ready(s, clock) && Bottom(s) != [] && RowIn(Bottom(s), s.ts) && RowsIn(s.rows, s.ts)
        && s.ts[Bottom(s)[0]].due <= clock
    ensures Ready(Fire(s, clock, mask), clock)
  {
    hide Near, Nested, Sorted, TickOk, Fire, Inv;
    InvRows(s);
    FireStep(s, clock, mask);
    var s1, t, b := Fire(s, clock, mask), Bottom(s)[0], Bottom(s);
    var b1 := Bottom(s1);
    forall i | 0 <= i < |b1|
      ensures exists k {:trigger b[k]} :: 0 <= k < |b| && b[k] == b1[i]
    {
      assert b1[i] in b1;
    }
    forall i | 0 <= i < |b1|
      ensures var tm := s1.ts[b1[i]];
          clock - tm.due < HALF && tm.due - clock < HALF && (tm.periodic ==> 0 < tm.init < HALF)
    {
      assert b1[i] in b1;
      var k :| 0 <= k < |b| && b[k] == b1[i];
    }
    forall i, j | 0 <= i < |b1| && 0 <= j < |b1| && s1.ts[b1[i]].periodic
      ensures clock + s1.ts[b1[i]].init - s1.ts[b1[j]].due < HALF
    {
      var k :| 0 <= k < |b| && b[k] == b1[i];
      var m :| 0 <= m < |b| && b[m] == b1[j];
      assert s.ts[b[k]].periodic;
    }
  }

  // ---------------------------------------------------------------- one rt_timer_check

  /** n rounds of the loop. */
  ghost function FireN(s: State, clock: nat, mask: nat, n: nat): State
    requires Inv(s) && Ready(s, clock) && RowIn(Bottom(s), s.ts) && n <= DuePrefix(s.ts, Bottom(s), clock, 0)
    decreases n
  {
    if n == 0 then s
    else
      FireStep(s, clock, mask);
      FireReady(s, clock, mask);
      FireN(Fire(s, clock, mask), clock, mask, n - 1)
  }

  /** The timers that fire in those rounds, in order. */
  ghost function FiredN(s: State, clock: nat, mask: nat, n: nat): seq<nat>
    requires Inv(s) && Ready(s, clock) && RowIn(Bottom(s), s.ts) && n <= DuePrefix(s.ts, Bottom(s), clock, 0)
    decreases n
  {
    if n == 0 then []
    else
      FireStep(s, clock, mask);
      FireReady(s, clock, mask);
      [Bottom(s)[0]] + FiredN(Fire(s, clock, mask), clock, mask, n - 1)
  }

  /** The loop of rt_timer_check stops by itself after exactly as many rounds as timers
      had reached their deadline when it began. */
  ghost function Check(s: State, clock: nat, mask: nat): State
    requires Inv(s) && Ready(s, clock)
  {
    InvRows(s);
    FireN(s, clock, mask, DuePrefix(s.ts, Bottom(s), clock, 0))
  }

  /** What has become of a timer after the rounds that fired `fired`. */
  predicate Handled(tm: Timer, after: Timer, fired: bool, clock: nat) {
    if !fired then after == tm
    else if tm.periodic then after.active && after.due == clock + tm.init && after.init == tm.init && after.periodic
    else after == tm.(active := false)
  }

  ghost predicate AllHandled(ts: seq<Timer>, ts1: seq<Timer>, fired: seq<nat>, clock: nat) {
    |ts1| == |ts| && forall t {:trigger ts1[t]} :: 0 <= t < |ts| ==> Handled(ts[t], ts1[t], t in fired, clock)
  }

  lemma {:induction false} FireNEffect(s: State, clock: nat, mask: nat, n: nat)
    requires Inv(s) && Ready(s, clock) && RowIn(Bottom(s), s.ts) && n <= DuePrefix(s.ts, Bottom(s), clock, 0)
    ensures var s1, b := FireN(s, clock, mask, n), Bottom(s);
      && Inv(s1) && Ready(s1, clock) && |s1.ts| == |s.ts| && RowIn(Bottom(s1), s1.ts)
      && DuePrefix(s1.ts, Bottom(s1), clock, 0) == DuePrefix(s.ts, b, clock, 0) - n
      && FiredN(s, clock, mask, n) == b[..n]
      && AllHandled(s.ts, s1.ts, b[..n], clock)
    decreases n
  {
    hide Inv, Ready, Fire, RowIn, AllHandled, Fired, DuePrefix, Bottom, Due;
    if n > 0 {
      FireStep(s, clock, mask);
      FireReady(s, clock, mask);
      var b, d, s0 := Bottom(s), DuePrefix(s.ts, Bottom(s), clock, 0), Fire(s, clock, mask);
      FireNEffect(s0, clock, mask, n - 1);
      PrefixSplit(b, Bottom(s0), n, d);
      HeadActive(s);
      HandledJoin(s, s0, FireN(s, clock, mask, n), b[..n], Bottom(s0)[..n - 1], clock);
    } else {
      NoneHandled(s.ts, Bottom(s)[..0], clock);
    }
  }

  lemma NoneHandled(ts: seq<Timer>, none: seq<nat>, clock: nat)
    requires none == []
    ensures AllHandled(ts, ts, none, clock)
  {
  }

  lemma HandledJoin(s: State, s0: State, s1: State, all: seq<nat>, rest: seq<nat>, clock: nat)
    requires Bottom(s) != [] && Fired(s, s0, clock) && |s1.ts| == |s0.ts| && s.ts[Bottom(s)[0]].active
    requires Bottom(s)[0] !in rest && forall x {:trigger x in all} :: x in all <==> x == Bottom(s)[0] || x in rest
    requires AllHandled(s0.ts, s1.ts, rest, clock)
    ensures AllHandled(s.ts, s1.ts, all, clock)
  {
    forall t | 0 <= t < |s.ts|
      ensures Handled(s.ts[t], s1.ts[t], t in all, clock)
    {
      assert Handled(s0.ts[t], s1.ts[t], t in rest, clock);
    }
  }

  lemma HeadActive(s: State)
    requires Inv(s) && Bottom(s) != []
    ensures RowIn(Bottom(s), s.ts) && s.ts[Bottom(s)[0]].active && NoDup(Bottom(s))
  {
    UnlinkHead(s);
    InvRows(s);
  }

  lemma PrefixSplit(b: seq<nat>, b1: seq<nat>, n: nat, d: nat)
    requires 0 < n <= d <= |b| && d - 1 <= |b1| && b1[..d - 1] == b[1..d]
    ensures b[..n] == [b[0]] + b1[..n - 1]
    ensures NoDup(b) ==> b[0] !in b1[..n - 1]
    ensures forall x {:trigger x in b[..n]} :: x in b[..n] <==> x == b[0] || x in b1[..n - 1]
  {
    assert b1[..n - 1] == b1[..d - 1][..n - 1] == b[1..d][..n - 1] == b[1..n];
    assert b[..n] == [b[0]] + b[1..n];
    if NoDup(b) {
      var r := b1[..n - 1];
      forall i | 0 <= i < |r|
        ensures r[i] != b[0]
      {
        assert r[i] == b[i + 1];
      }
    }
  }

  /** One rt_timer_check, whatever the tick wrapped to: the timers that fire are exactly
      the running ones whose deadline is reached, each once, in the order of their
      deadlines and of their starts on ties; periodic ones run again from now on,
      one-shots are stopped, all others are untouched, and nothing that runs afterwards
      is due. */
  lemma CheckFiresWhatIsDue(s: State, clock: nat, mask: nat)
    requires Inv(s) && Ready(s, clock)
    ensures var s1, b := Check(s, clock, mask), Bottom(s);
      && Inv(s1) && |s1.ts| == |s.ts| && RowIn(b, s.ts)
      && var fired := b[..DuePrefix(s.ts, b, clock, 0)];
      && FiredN(s, clock, mask, |fired|) == fired
      && Sorted(s.ts, fired) && NoDup(fired)
      && (forall t {:trigger s.ts[t]} :: 0 <= t < |s.ts| ==> (t in fired <==> s.ts[t].active && s.ts[t].due <= clock))
      && AllHandled(s.ts, s1.ts, fired, clock)
      && (forall t {:trigger s1.ts[t]} :: 0 <= t < |s1.ts| && s1.ts[t].active ==> s1.ts[t].due > clock)
  {
    InvRows(s);
    var b, n := Bottom(s), DuePrefix(s.ts, Bottom(s), clock, 0);
    FireNEffect(s, clock, mask, n);
    hide Ready, Nested, Near, FireN, FiredN;
    DueAreFirst(s, clock);
    PrefixSorted(s.ts, b, n);
    var s1 := Check(s, clock, mask);
    DueAreFirst(s1, clock);
    assert Bottom(s1)[..0] == [];
  }

  lemma PrefixSorted(ts: seq<Timer>, b: seq<nat>, n: nat)
    requires Sorted(ts, b) && n <= |b|
    ensures Sorted(ts, b[..n]) && NoDup(b[..n])
  {
  }

  lemma DueAreFirst(s: State, clock: nat)
    requires Inv(s)
    ensures RowIn(Bottom(s), s.ts)
    ensures var fired := Bottom(s)[..DuePrefix(s.ts, Bottom(s), clock, 0)];
            forall t {:trigger s.ts[t]} :: 0 <= t < |s.ts| ==> (t in fired <==> s.ts[t].active && s.ts[t].due <= clock)
  {
    InvRows(s);
    var b, n := Bottom(s), DuePrefix(s.ts, Bottom(s), clock, 0);
    forall t | 0 <= t < |s.ts|
      ensures t in b[..n] <==> s.ts[t].active && s.ts[t].due <= clock
    {
      if t in b {
        var i :| 0 <= i < |b| && b[i] == t;
        if i < n { assert b[..n][i] == t; }
        if n < i { assert Before(s.ts[b[n]], s.ts[b[i]]); }
      }
    }
  }

  /** The deadline rt_timer_list_next_timeout reports is the earliest. */
  lemma NextTimeoutIsEarliest(s: State, t: nat)
    requires Inv(s) && t < |s.ts| && s.ts[t].active
    ensures Bottom(s) != [] && Bottom(s)[0] < |s.ts| && s.ts[Bottom(s)[0]].due <= s.ts[t].due
  {
    var b := Bottom(s);
    var i :| 0 <= i < |b| && b[i] == t;
    assert i > 0 ==> Before(s.ts[b[0]], s.ts[b[i]]);
  }

  // ---------------------------------------------------------------- runs

  datatype Op = OpStart(t: nat) | OpStop(t: nat) | OpSetTime(t: nat, time: nat) | OpSetPeriodic(t: nat, periodic: bool)
              | OpTick(n: nat) | OpCheck

  /** A start or a check happens while no deadline is so late, or so far ahead, that
      32-bit differences mislead. */
  ghost predicate Allowed(s: State, clock: nat, op: Op) {
    match op
    case OpStart(t) => CanStart(s, t, clock)
    case OpStop(t) => t < |s.ts|
    case OpSetTime(t, _) => t < |s.ts|
    case OpSetPeriodic(t, _) => t < |s.ts|
    case OpTick(_) => true
    case OpCheck => Ready(s, clock)
  }

  ghost function Step(s: State, clock: nat, op: Op, mask: nat): State
    requires Inv(s) && Allowed(s, clock, op)
  {
    match op
    case OpStart(t) => Start(s, t, clock, mask)
    case OpStop(t) => if s.ts[t].active then Unlink(s, t) else s
    case OpSetTime(t, time) => s.(ts := s.ts[t := s.ts[t].(init := time)])
    case OpSetPeriodic(t, periodic) => s.(ts := s.ts[t := s.ts[t].(periodic := periodic)])
    case OpTick(_) => s
    case OpCheck => Check(s, clock, mask)
  }

  lemma SetKeeps(s: State, t: nat, tm: Timer)
    requires Inv(s) && t < |s.ts| && tm == s.ts[t].(init := tm.init, periodic := tm.periodic)
    ensures Inv(s.(ts := s.ts[t := tm]))
  {
    hide Sorted, Near, Nested;
    SameRow(s.ts, s.ts[t := tm], Bottom(s));
  }

  lemma StepKeeps(s: State, clock: nat, op: Op, mask: nat)
    requires Inv(s) && Allowed(s, clock, op)
    ensures Inv(Step(s, clock, op, mask))
  {
    hide Inv, Start, Unlink, Check;
    match op
    case OpStart(t) => StartKeeps(s, t, clock, mask);
    case OpStop(t) => UnlinkKeeps(s, t);
    case OpSetTime(t, time) => SetKeeps(s, t, s.ts[t].(init := time));
    case OpSetPeriodic(t, periodic) => SetKeeps(s, t, s.ts[t].(periodic := periodic));
    case OpTick(_) =>
    case OpCheck => CheckFiresWhatIsDue(s, clock, mask);
  }

  function TimeAfter(clock: nat, op: Op): nat { if op.OpTick? then clock + op.n else clock }

  ghost function Run(s: State, clock: nat, ops: seq<Op>, mask: nat): State
    requires Inv(s)
    decreases |ops|
  {
    if ops == [] then s
    else if !Allowed(s, clock, ops[0]) then Run(s, TimeAfter(clock, ops[0]), ops[1..], mask)
    else
      StepKeeps(s, clock, ops[0], mask);
      Run(Step(s, clock, ops[0], mask), TimeAfter(clock, ops[0]), ops[1..], mask)
  }

  /** Over every run, for every number of rows and across every wrap of the tick: each
      row is a subsequence of the row below, the bottom row is sorted by deadline with
      ties in start order, and holds exactly the active timers. */
  lemma {:induction false} RunsKeepSkipList(s: State, clock: nat, ops: seq<Op>, mask: nat)
    requires Inv(s)
    ensures Inv(Run(s, clock, ops, mask))
    decreases |ops|
  {
    hide Inv, Step;
    if ops != [] {
      var c := TimeAfter(clock, ops[0]);
      if Allowed(s, clock, ops[0]) {
        StepKeeps(s, clock, ops[0], mask);
        RunsKeepSkipList(Step(s, clock, ops[0], mask), c, ops[1..], mask);
      } else {
        RunsKeepSkipList(s, c, ops[1..], mask);
      }
    }
  }

  function Initial(inits: seq<nat>, levels: nat): State {
    State(seq(|inits|, t requires 0 <= t < |inits| => Timer(inits[t], 0, false, false, 0, 0)), seq(levels, _ => []), 0)
  }

  lemma InitialKeeps(inits: seq<nat>, levels: nat)
    requires levels > 0
    ensures Inv(Initial(inits, levels))
  {
  }

  // ---------------------------------------------------------------- starting and stopping

  /** In all rows only t may have come, gone or moved. */
  ghost predicate OnlyTimerMoves(s: State, s1: State, t: nat) {
    |s1.rows| == |s.rows| && forall l {:trigger s1.rows[l]} ::
        0 <= l < |s.rows| ==> Without(s1.rows[l], t) == Without(s.rows[l], t)
  }

  /** At most timer t has changed. */
  ghost predicate OnlyTimer(s: State, s1: State, t: nat) {
    |s1.ts| == |s.ts| && t < |s.ts| && forall u {:trigger s1.ts[u]} :: 0 <= u < |s.ts| && u != t ==> s1.ts[u] == s.ts[u]
  }

  /** The verdict of rt_timer_start, on a one-shot or a periodic timer, running or not: it
      is active with its deadline init ticks from now, and in the rows its height gives;
      every other timer stays as and where it was. */
  lemma StartVerdict(s: State, t: nat, clock: nat, mask: nat)
    requires Inv(s) && t < |s.ts|
    ensures RowsIn(s.rows, s.ts)
    ensures var s1 := Start(s, t, clock, mask);
      && OnlyTimer(s, s1, t) && OnlyTimerMoves(s, s1, t) && s1.starts == s.starts + 1
      && s1.ts[t].active && s1.ts[t].due == clock + s.ts[t].init && s1.ts[t].timeout == s1.ts[t].due % WORD_RANGE
      && s1.ts[t].init == s.ts[t].init && s1.ts[t].periodic == s.ts[t].periodic
      && forall l {:trigger s1.rows[l]} :: 0 <= l < |s.rows| ==>
           (t in s1.rows[l] <==> |s.rows| - 1 - l < Height((s.starts + 1) % WORD_RANGE, |s.rows|, mask))
  {
    hide Nested, Near, Slot, Height, Start;
    InvRows(s);
    StartTimers(s, t, clock, mask);
    var s1, ts1 := Start(s, t, clock, mask), Armed(s, t, clock);
    forall l | 0 <= l < |s.rows|
      ensures Without(s1.rows[l], t) == Without(s.rows[l], t)
      ensures t in s1.rows[l] <==> |s.rows| - 1 - l < Height((s.starts + 1) % WORD_RANGE, |s.rows|, mask)
    {
      var row := Without(s.rows[l], t);
      WithoutMembers(s.rows[l], t);
      AllInRange(row, s.rows[l], |s.ts|);
      NoneWithout(row, t);
      StartRow(s, t, clock, mask, l);
      var k := Slot(ts1, row, ts1[t].timeout, 0);
      InsertMembers(row, t, k);
      InsertedOut(row, t, k);
    }
  }

  lemma StartTimers(s: State, t: nat, clock: nat, mask: nat)
    requires RowsIn(s.rows, s.ts) && t < |s.ts|
    ensures var s1 := Start(s, t, clock, mask);
      s1.ts == Armed(s, t, clock) && s1.starts == s.starts + 1 && |s1.rows| == |s.rows|
  {
  }

  lemma {:induction false} InsertedOut(row: seq<nat>, t: nat, k: nat)
    requires t !in row && k <= |row|
    ensures Without(Insert(row, t, k), t) == row
  {
    var r := Insert(row, t, k);
    if k == 0 {
      assert r[1..] == row;
      NoneWithout(row, t);
    } else {
      assert r[0] == row[0] && r[1..] == Insert(row[1..], t, k - 1) && row == [row[0]] + row[1..];
      InsertedOut(row[1..], t, k - 1);
    }
  }

  /** The verdict of rt_timer_stop on an active timer: it is in no row, and inactive; every
      other timer stays as and where it was. */
  lemma StopVerdict(s: State, t: nat)
    requires Inv(s) && t < |s.ts|
    ensures var s1 := Unlink(s, t);
      && OnlyTimer(s, s1, t) && OnlyTimerMoves(s, s1, t) && s1.ts[t] == s.ts[t].(active := false)
      && s1.starts == s.starts && forall l {:trigger s1.rows[l]} :: 0 <= l < |s.rows| ==> t !in s1.rows[l]
  {
    hide Nested, Near;
    var s1 := Unlink(s, t);
    forall l | 0 <= l < |s.rows|
      ensures Without(s1.rows[l], t) == Without(s.rows[l], t) && t !in s1.rows[l]
    {
      WithoutMembers(s.rows[l], t);
      NoneWithout(Without(s.rows[l], t), t);
    }
  }

  /** Which rows: a timer is k rows up from the bottom exactly if the k lowest groups of bits
      of its start number are clear, and there are so many rows. */
  lemma {:induction false} HeightMeans(nr: nat, levels: nat, mask: nat, k: nat)
    requires levels > 0
    ensures k < Height(nr, levels, mask) <==>
      k < levels && forall j {:trigger Group(nr, j, mask)} :: 0 <= j < k ==> Group(nr, j, mask) == 0
    decreases levels
  {
    var w := (mask + 1) / 2;
    if k > 0 && levels > 1 {
      assert Group(nr, 0, mask) == And(nr, mask);
      if And(nr, mask) == 0 {
        var up := ShiftRight(nr, w);
        HeightMeans(up, levels - 1, mask, k - 1);
        forall j: nat
          ensures Group(up, j, mask) == Group(nr, j + 1, mask)
        {
          GroupUp(nr, j, mask);
        }
        if forall j {:trigger Group(up, j, mask)} :: 0 <= j < k - 1 ==> Group(up, j, mask) == 0 {
          forall j | 0 <= j < k
            ensures Group(nr, j, mask) == 0
          {
            if j > 0 { assert Group(up, j - 1, mask) == 0; }
          }
        }
      }
    }
  }

  /** The j-th group of bits of a start number, from the low end. */
  function Group(nr: nat, j: nat, mask: nat): nat { And(ShiftRight(nr, j * ((mask + 1) / 2)), mask) }

  lemma GroupUp(nr: nat, j: nat, mask: nat)
    ensures Group(ShiftRight(nr, (mask + 1) / 2), j, mask) == Group(nr, j + 1, mask)
  {
    var w := (mask + 1) / 2;
    assert (j + 1) * w == w + j * w;
    ShiftTwice(nr, w, j * w);
  }

  lemma {:induction false} ShiftTwice(a: nat, k: nat, l: nat)
    ensures ShiftRight(ShiftRight(a, k), l) == ShiftRight(a, k + l)
    decreases k
  {
    if k > 0 { ShiftTwice(a / 2, k - 1, l); }
  }
}
