/** rt-thread/src/timer.c: the timer lists. A row is the sequence of the timers linked
    into it; tick values are 32 bits wide, clock is the true time they stand for. */
module Timers {
  import opened Bits
  import opened Common
  import opened Lists
  import opened TimerSpec
  import opened TimerTheorems

  /** Where in a row a timer's node is: row_head + 1 is the same timer, one row down. */
  function IndexIn(row: seq<nat>, x: nat): (r: nat)
    requires x in row
    ensures r < |row| && row[r] == x
  {
    if row[0] == x then 0 else 1 + IndexIn(row[1..], x)
  }

  /** The whole skip list is ready for timer x at its new deadline. */
  ghost predicate Searchable(ts: seq<Timer>, rows: seq<seq<nat>>, x: nat) {
    && Nested(rows)
    && forall l {:trigger rows[l]} ::
        0 <= l < |rows| ==> RowIn(rows[l], ts) && Sorted(ts, rows[l]) && Fits(ts, rows[l], x)
  }

  /** Going down one row behind a timer that is not later skips only such timers. */
  lemma Descend(ts: seq<Timer>, rows: seq<seq<nat>>, x: nat, l: nat, pos: nat)
    requires Searchable(ts, rows, x) && l + 1 < |rows| && 0 < pos <= |rows[l]| && RowIn(rows[l], ts)
        && ts[rows[l][pos - 1]].due <= ts[x].due
    ensures rows[l][pos - 1] in rows[l + 1] && RowIn(rows[l + 1], ts)
    ensures var k := IndexIn(rows[l + 1], rows[l][pos - 1]) + 1;
            Slot(ts, rows[l + 1], ts[x].timeout, k) == Slot(ts, rows[l + 1], ts[x].timeout, 0)
  {
    var a, b := rows[l], rows[l + 1];
    assert Sub(a, b);
    SubMembers(a, b);
    assert a[pos - 1] in a;
    var k := IndexIn(b, a[pos - 1]) + 1;
    forall i | 0 <= i < k
      ensures ts[b[i]].due <= ts[x].due
    {
      assert i < k - 1 ==> Before(ts[b[i]], ts[b[k - 1]]);
    }
    SlotFrom(ts, b, x, k);
  }

  /** The inner loop: along one row, up to the first later deadline. */
  method ScanRow(timeouts: seq<nat>, row: seq<nat>, x: nat, start: nat, ghost ts: seq<Timer>) returns (pos: nat)
    requires RowIn(row, ts) && x < |ts| && |timeouts| == |ts| && start <= |row|
    requires forall t {:trigger timeouts[t]} :: 0 <= t < |ts| ==> timeouts[t] == ts[t].timeout
    ensures pos == Slot(ts, row, ts[x].timeout, start) <= |row|
  {
    pos := start;
    while pos != |row|
      invariant pos <= |row| && Slot(ts, row, ts[x].timeout, pos) == Slot(ts, row, ts[x].timeout, start)
      decreases |row| - pos
    {
      var d := Minus(timeouts[row[pos]], timeouts[x]);
      if d != 0 && d < HALF { break; }
      pos := pos + 1;
    }
  }

  /** The nested search loops of rt_timer_start: on every row they find the very place
      a linear scan of that row finds. */
  method Search(timeouts: seq<nat>, rows: seq<seq<nat>>, x: nat, ghost ts: seq<Timer>) returns (heads: seq<nat>)
    requires |rows| > 0 && x < |ts| && |timeouts| == |ts| && Searchable(ts, rows, x)
    requires forall t {:trigger timeouts[t]} :: 0 <= t < |ts| ==> timeouts[t] == ts[t].timeout
    ensures |heads| == |rows|
    ensures forall l {:trigger heads[l]} ::
        0 <= l < |rows| ==> RowIn(rows[l], ts) && heads[l] == Slot(ts, rows[l], ts[x].timeout, 0)
  {
    hide Nested, Sorted, Fits, RowIn;
    heads := [];
    var l, pos: nat := 0, 0;
    while l < |rows|
      invariant l <= |rows| && |heads| == l
      invariant l < |rows| ==>
          RowIn(rows[l], ts) && pos <= |rows[l]|
          && Slot(ts, rows[l], ts[x].timeout, pos) == Slot(ts, rows[l], ts[x].timeout, 0)
      invariant forall m {:trigger heads[m]} ::
          0 <= m < l ==> RowIn(rows[m], ts) && heads[m] == Slot(ts, rows[m], ts[x].timeout, 0)
    {
      SlotIs(ts, rows[l], x, 0);
      pos := ScanRow(timeouts, rows[l], x, pos, ts);
      heads := heads + [pos];
      if l + 1 < |rows| {
        if pos > 0 {
          Descend(ts, rows, x, l, pos);
          pos := IndexIn(rows[l + 1], rows[l][pos - 1]) + 1;
        }
      }
      l := l + 1;
    }
  }

  /** heads are places in the rows. */
  ghost predicate Places(rows: seq<seq<nat>>, heads: seq<nat>) {
    |heads| == |rows| && forall l {:trigger heads[l]} :: 0 <= l < |rows| ==> heads[l] <= |rows[l]|
  }

  /** t inserted at the places found into the last h rows. */
  ghost function Lifted(rows: seq<seq<nat>>, t: nat, h: nat, heads: seq<nat>): (r: seq<seq<nat>>)
    requires Places(rows, heads)
    ensures |r| == |rows|
  {
    seq(|rows|, l requires 0 <= l < |rows| => if l + h >= |rows| then Insert(rows[l], t, heads[l]) else rows[l])
  }

  lemma LiftedMore(rows: seq<seq<nat>>, t: nat, h: nat, heads: seq<nat>)
    requires Places(rows, heads) && h < |rows|
    ensures var l := |rows| - h - 1;
      heads[l] <= |rows[l]| && Lifted(rows, t, h, heads)[l] == rows[l]
      && Lifted(rows, t, h + 1, heads) == Lifted(rows, t, h, heads)[l := Insert(rows[l], t, heads[l])]
  {
  }

  lemma NoneLifted(rows: seq<seq<nat>>, t: nat, heads: seq<nat>)
    requires Places(rows, heads)
    ensures Lifted(rows, t, 0, heads) == rows
  {
  }

  lemma LiftedIs(ts: seq<Timer>, rows: seq<seq<nat>>, t: nat, h: nat, heads: seq<nat>)
    requires RowsIn(rows, ts) && t < |ts| && |heads| == |rows|
    requires forall l {:trigger heads[l]} ::
        0 <= l < |rows| ==> RowIn(rows[l], ts) && heads[l] == Slot(ts, rows[l], ts[t].timeout, 0)
    ensures Places(rows, heads) && Lifted(rows, t, h, heads) == InsertRows(ts, rows, t, h)
  {
  }

  class TimerList {
    const mask: nat                   // RT_TIMER_SKIP_LIST_MASK
    var rows: seq<seq<nat>>           // rt_timer_list
    var initTick: seq<nat>
    var timeoutTick: seq<nat>
    var periodic: seq<bool>
    var activated: seq<bool>
    var randomNr: nat
    ghost var ts: seq<Timer>
    ghost var starts: nat

    ghost function Abs(): State
      reads this
    {
      State(ts, rows, starts)
    }

    ghost predicate Mirrors()
      reads this
    {
      && randomNr == starts % WORD_RANGE
      && |initTick| == |timeoutTick| == |periodic| == |activated| == |ts|
      && forall t {:trigger ts[t]} :: 0 <= t < |ts| ==>
           initTick[t] == ts[t].init && timeoutTick[t] == ts[t].timeout && periodic[t] == ts[t].periodic
               && activated[t] == ts[t].active
    }

    ghost predicate Valid()
      reads this
    {
      Mirrors() && Inv(Abs())
    }

    constructor (inits: seq<nat>, flags: seq<bool>, levels: nat, bits: nat)
      requires levels > 0 && |flags| == |inits|
      ensures Valid() && mask == bits && |rows| == levels && |ts| == |inits|
      ensures forall l {:trigger rows[l]} :: 0 <= l < levels ==> rows[l] == []
    {
      mask := bits;
      rows := seq(levels, _ => []);
      initTick, timeoutTick := inits, seq(|inits|, _ => 0);
      periodic, activated := flags, seq(|inits|, _ => false);
      randomNr, starts := 0, 0;
      ts := seq(|inits|, t requires 0 <= t < |inits| => Timer(inits[t], 0, flags[t], false, 0, 0));
    }

    /** _rt_timer_remove: out of every row. */
    method Remove(t: nat)
      modifies this`rows
      ensures rows == RemoveRows(old(rows), t)
    {
      var i := 0;
      while i < |rows|
        invariant i <= |rows| == |old(rows)|
        invariant forall l {:trigger rows[l]} ::
            0 <= l < |rows| ==> rows[l] == if l < i then Without(old(rows)[l], t) else old(rows)[l]
      {
        rows := rows[i := Without(rows[i], t)];
        i := i + 1;
      }
      assert rows == RemoveRows(old(rows), t);
    }

    /** rt_timer_start at tick `now`. */
    method Start(t: nat, now: nat, ghost clock: nat)
      requires Valid() && CanStart(Abs(), t, clock) && now == clock % WORD_RANGE
      modifies this
      ensures Valid() && Abs() == TimerSpec.Start(old(Abs()), t, clock, mask)
    {
      hide Inv, Nested, Sorted, Fits, Near, CanStart;
      ghost var s := Abs();
      StartFacts(s, t, clock);
      StartKeeps(s, t, clock, mask);
      Remove(t);
      activated := activated[t := false];
      timeoutTick := timeoutTick[t := (now + initTick[t]) % WORD_RANGE];
      WrapSum(clock, initTick[t]);
      ts := Armed(s, t, clock);
      var heads := Search(timeoutTick, rows, t, ts);
      randomNr := (randomNr + 1) % WORD_RANGE;
      NextNumber(starts);
      LinkRows(t, heads);
      activated := activated[t := true];
      starts := starts + 1;
    }

    /** The links of rt_timer_start: always into the last row, and upwards while the
        start counter's bits allow. */
    method LinkRows(t: nat, heads: seq<nat>)
      requires |rows| > 0 && t < |ts| && |heads| == |rows| && RowsIn(rows, ts)
      requires forall l {:trigger heads[l]} ::
          0 <= l < |rows| ==> RowIn(rows[l], ts) && heads[l] == Slot(ts, rows[l], ts[t].timeout, 0)
      modifies this`rows
      ensures rows == InsertRows(ts, old(rows), t, Height(randomNr, |old(rows)|, mask))
    {
      hide InsertRows, Lifted, Places, And, ShiftRight;
      ghost var r0 := rows;
      var levels, nr: nat := |rows|, randomNr;
      LiftedIs(ts, r0, t, Height(randomNr, levels, mask), heads);
      NoneLifted(r0, t, heads);
      LiftedMore(r0, t, 0, heads);
      rows := rows[levels - 1 := Insert(rows[levels - 1], t, heads[levels - 1])];
      var h := 1;
      while h < levels && And(nr, mask) == 0
        invariant 1 <= h <= levels == |rows| == |r0|
        invariant Height(randomNr, levels, mask) == h - 1 + Height(nr, levels - h + 1, mask)
        invariant rows == Lifted(r0, t, h, heads)
      {
        var l := levels - h - 1;
        LiftedMore(r0, t, h, heads);
        rows := rows[l := Insert(rows[l], t, heads[l])];
        nr := ShiftRight(nr, (mask + 1) / 2);
        h := h + 1;
      }
    }

    /** rt_timer_stop. */
    method Stop(t: nat) returns (code: Code)
      requires Valid() && t < |ts|
      modifies this
      ensures Valid() && code == (if old(ts)[t].active then EOK else ERROR)
      ensures Abs() == if old(ts)[t].active then Unlink(old(Abs()), t) else old(Abs())
    {
      hide Inv;
      if !activated[t] { return ERROR; }
      UnlinkKeeps(Abs(), t);
      Remove(t);
      activated := activated[t := false];
      ts := ts[t := ts[t].(active := false)];
      code := EOK;
    }

    /** rt_timer_check at tick `now`, with callbacks that touch no timer; returns the
        timers whose callbacks were called. */
    method Check(now: nat, ghost clock: nat) returns (fired: seq<nat>)
      requires Valid() && Ready(Abs(), clock) && now == clock % WORD_RANGE
      modifies this
      ensures Valid() && Abs() == TimerTheorems.Check(old(Abs()), clock, mask)
      ensures RowIn(Bottom(old(Abs())), old(ts))
          && fired == Bottom(old(Abs()))[..DuePrefix(old(ts), Bottom(old(Abs())), clock, 0)]
    {
      hide Inv, Ready, Rounds;
      InvRows(Abs());
      ghost var s, k := Abs(), 0;
      ghost var n := DuePrefix(ts, Bottom(s), clock, 0);
      fired := [];
      NoRounds(s, clock, mask, n);
      while rows[|rows| - 1] != []
        invariant Valid() && |rows| > 0 && k <= n && Rounds(s, Abs(), clock, mask, n, k, fired)
        decreases n - k
      {
        FrontDue(s, Abs(), clock, mask, n, k, fired);
        var t := rows[|rows| - 1][0];
        if Minus(now, timeoutTick[t]) >= HALF { break; }
        OneRound(s, Abs(), clock, mask, n, k, fired);
        FireOnce(t, now, clock);
        fired := fired + [t];
        k := k + 1;
        InvRows(Abs());
      }
      AllRounds(s, Abs(), clock, mask, n, k, fired);
    }

    /** One round of the loop: the first timer of the last row fires. */
    method FireOnce(t: nat, now: nat, ghost clock: nat)
      requires Valid() && Ready(Abs(), clock) && now == clock % WORD_RANGE
      requires Bottom(Abs()) != [] && Bottom(Abs())[0] == t && t < |ts| && ts[t].due <= clock && RowsIn(rows, ts)
      modifies this
      ensures Valid() && Abs() == Fire(old(Abs()), clock, mask)
    {
      hide Inv, Ready, TimerSpec.Start, CanStart;
      UnlinkHead(Abs());
      if ts[t].periodic { HeadCanRestart(Abs(), clock); }
      var again := periodic[t] && activated[t];
      Remove(t);
      activated := activated[t := false];
      ts := ts[t := ts[t].(active := false)];
      if again { Start(t, now, clock); }
    }
  }

  // ---------------------------------------------------------------- the expiry loop, seen from its middle

  /** cur is s after k of the n rounds, in which the timers `fired` fired. */
  ghost predicate Rounds(s: State, cur: State, clock: nat, mask: nat, n: nat, k: nat, fired: seq<nat>) {
    && Inv(s) && Ready(s, clock) && RowIn(Bottom(s), s.ts) && n == DuePrefix(s.ts, Bottom(s), clock, 0)
    && Inv(cur) && Ready(cur, clock) && RowIn(Bottom(cur), cur.ts) && k <= n
        && DuePrefix(cur.ts, Bottom(cur), clock, 0) == n - k
    && FireN(cur, clock, mask, n - k) == FireN(s, clock, mask, n)
    && fired + FiredN(cur, clock, mask, n - k) == FiredN(s, clock, mask, n)
  }

  lemma NoRounds(s: State, clock: nat, mask: nat, n: nat)
    requires Inv(s) && Ready(s, clock) && RowIn(Bottom(s), s.ts) && n == DuePrefix(s.ts, Bottom(s), clock, 0)
    ensures Rounds(s, s, clock, mask, n, 0, [])
  {
  }

  lemma FrontDue(s: State, cur: State, clock: nat, mask: nat, n: nat, k: nat, fired: seq<nat>)
    requires Rounds(s, cur, clock, mask, n, k, fired) && Bottom(cur) != []
    ensures var t := Bottom(cur)[0];
      && t < |cur.ts| && RowsIn(cur.rows, cur.ts) && Ready(cur, clock)
      && (Minus(clock % WORD_RANGE, cur.ts[t].timeout) < HALF <==> cur.ts[t].due <= clock)
      && (cur.ts[t].due <= clock <==> k < n)
  {
    DueIs(cur, clock, 0);
  }

  lemma Unfold(cur: State, clock: nat, mask: nat, m: nat)
    requires Inv(cur) && Ready(cur, clock) && RowIn(Bottom(cur), cur.ts)
        && m == DuePrefix(cur.ts, Bottom(cur), clock, 0) && m > 0
    ensures RowsIn(cur.rows, cur.ts)
    ensures var next := Fire(cur, clock, mask);
      && Inv(next) && Ready(next, clock) && RowIn(Bottom(next), next.ts)
          && DuePrefix(next.ts, Bottom(next), clock, 0) == m - 1
      && FireN(cur, clock, mask, m) == FireN(next, clock, mask, m - 1)
      && FiredN(cur, clock, mask, m) == [Bottom(cur)[0]] + FiredN(next, clock, mask, m - 1)
  {
    hide Inv, Ready, Fire, Fired, RowIn;
    FireStep(cur, clock, mask);
    FireReady(cur, clock, mask);
  }

  lemma OneRound(s: State, cur: State, clock: nat, mask: nat, n: nat, k: nat, fired: seq<nat>)
    requires Rounds(s, cur, clock, mask, n, k, fired) && Bottom(cur) != [] && k < n
    ensures RowsIn(cur.rows, cur.ts)
        && Rounds(s, Fire(cur, clock, mask), clock, mask, n, k + 1, fired + [Bottom(cur)[0]])
  {
    hide Inv, Ready, Fire, FireN, FiredN, RowIn;
    Unfold(cur, clock, mask, n - k);
    var next := Fire(cur, clock, mask);
    assert fired + ([Bottom(cur)[0]] + FiredN(next, clock, mask, n - k - 1)) ==
        (fired + [Bottom(cur)[0]]) + FiredN(next, clock, mask, n - k - 1);
  }

  lemma AllRounds(s: State, cur: State, clock: nat, mask: nat, n: nat, k: nat, fired: seq<nat>)
    requires Rounds(s, cur, clock, mask, n, k, fired) && (Bottom(cur) != [] ==> k == n)
    ensures Inv(s) && Ready(s, clock) && cur == TimerTheorems.Check(s, clock, mask)
    ensures RowIn(Bottom(s), s.ts) && fired == Bottom(s)[..DuePrefix(s.ts, Bottom(s), clock, 0)]
  {
    FireNEffect(s, clock, mask, n);
  }

  // ---------------------------------------------------------------- helpers of rt_timer_start

  lemma StartFacts(s: State, t: nat, clock: nat)
    requires Inv(s) && CanStart(s, t, clock)
    ensures |s.rows| > 0 && t < |s.ts| && RowsIn(s.rows, s.ts)
    ensures Searchable(Armed(s, t, clock), RemoveRows(s.rows, t), t)
    ensures RowsIn(RemoveRows(s.rows, t), Armed(s, t, clock))
  {
    hide Nested, Sorted, Fits, Near, CanStart;
    assert t < |s.ts| by { StartIn(s, t, clock); }
    InvRows(s);
    RemovedNested(s.rows, t);
    RemovedIn(s, t);
    forall l | 0 <= l < |s.rows|
      ensures var row, ts1 := Without(s.rows[l], t), Armed(s, t, clock);
          RowIn(row, ts1) && Sorted(ts1, row) && Fits(ts1, row, t)
    {
      RowReady(s, t, clock, l);
    }
  }

  lemma StartIn(s: State, t: nat, clock: nat)
    requires CanStart(s, t, clock)
    ensures t < |s.ts|
  {
  }

  lemma WrapSum(clock: nat, init: nat)
    ensures (clock % WORD_RANGE + init) % WORD_RANGE == (clock + init) % WORD_RANGE
  {
    var q := clock / WORD_RANGE;
    assert clock + init == q * WORD_RANGE + (clock % WORD_RANGE + init);
    WrapMore(clock % WORD_RANGE + init, q);
  }

  lemma {:induction false} WrapMore(x: nat, q: nat)
    ensures (q * WORD_RANGE + x) % WORD_RANGE == x % WORD_RANGE
    decreases q
  {
    if q > 0 {
      WrapMore(x, q - 1);
      assert q * WORD_RANGE + x == ((q - 1) * WORD_RANGE + x) + WORD_RANGE;
    }
  }

  lemma NextNumber(starts: nat)
    ensures (starts % WORD_RANGE + 1) % WORD_RANGE == (starts + 1) % WORD_RANGE
  {
    WrapSum(starts, 1);
  }
}
