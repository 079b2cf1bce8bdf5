/** rt-thread/src/timer.c, specification: a skip list of timers ordered by modular
    32-bit time, and the expiry loop. Row 0 is the top row, the last row holds every
    running timer. `due` and `serial` are history: the true time a timer was armed for,
    of which timeout_tick keeps the low 32 bits, and the number of the start that armed
    it. */
module TimerSpec {
  import opened Bits
  import opened Common
  import opened Lists

  const HALF: nat := 0x7FFF_FFFF       // RT_TICK_MAX / 2

  datatype Timer = Timer(init: nat, timeout: nat, periodic: bool, active: bool, due: nat, serial: nat)

  datatype State = State(ts: seq<Timer>, rows: seq<seq<nat>>, starts: nat)

  /** 32-bit unsigned difference. */
  function Minus(a: nat, b: nat): nat { (a - b) % WORD_RANGE }

  /** The test that stops the search: tick a lies behind tick b. */
  predicate Later(a: nat, b: nat) { Minus(a, b) != 0 && Minus(a, b) < HALF }

  predicate RowIn(row: seq<nat>, ts: seq<Timer>) { InRange(row, |ts|) }

  /** Linear scan from position k: the first timer that lies behind the tick. */
  function Slot(ts: seq<Timer>, row: seq<nat>, tick: nat, k: nat): (r: nat)
    requires RowIn(row, ts) && k <= |row|
    ensures k <= r <= |row|
    ensures r < |row| ==> Later(ts[row[r]].timeout, tick)
    decreases |row| - k
  {
    if k == |row| || Later(ts[row[k]].timeout, tick) then k else Slot(ts, row, tick, k + 1)
  }

  /** Rows a timer is linked into, counted from the bottom: one more for each group of
      bits of the start number that is clear under the skip-list mask. */
  function Height(nr: nat, levels: nat, mask: nat): (r: nat)
    ensures levels > 0 ==> 1 <= r <= levels
    decreases levels
  {
    if levels > 1 && And(nr, mask) == 0 then 1 + Height(ShiftRight(nr, (mask + 1) / 2), levels - 1, mask) else 1
  }

  function RemoveRows(rows: seq<seq<nat>>, t: nat): seq<seq<nat>> {
    seq(|rows|, l requires 0 <= l < |rows| => Without(rows[l], t))
  }

  predicate RowsIn(rows: seq<seq<nat>>, ts: seq<Timer>) {
    forall l {:trigger rows[l]} :: 0 <= l < |rows| ==> RowIn(rows[l], ts)
  }

  /** Timer t, which no row holds, linked into the lowest h rows. */
  function InsertRows(ts: seq<Timer>, rows: seq<seq<nat>>, t: nat, h: nat): seq<seq<nat>>
    requires RowsIn(rows, ts) && t < |ts|
  {
    seq(|rows|, l requires 0 <= l < |rows| =>
      if l + h >= |rows| then Insert(rows[l], t, Slot(ts, rows[l], ts[t].timeout, 0)) else rows[l])
  }

  /** rt_timer_stop on an active timer. */
  function Unlink(s: State, t: nat): State
    requires t < |s.ts|
  {
    s.(rows := RemoveRows(s.rows, t), ts := s.ts[t := s.ts[t].(active := false)])
  }

  function Armed(s: State, t: nat, clock: nat): seq<Timer>
    requires t < |s.ts|
  {
    s.ts[t := s.ts[t].(timeout := (clock + s.ts[t].init) % WORD_RANGE, due := clock + s.ts[t].init,
                       active := true, serial := s.starts + 1)]
  }

  lemma RemovedIn(s: State, t: nat)
    requires RowsIn(s.rows, s.ts)
    ensures forall ts {:trigger RowsIn(RemoveRows(s.rows, t), ts)} ::
        |ts| == |s.ts| ==> RowsIn(RemoveRows(s.rows, t), ts)
  {
    forall l | 0 <= l < |s.rows|
      ensures InRange(Without(s.rows[l], t), |s.ts|)
    {
      WithoutMembers(s.rows[l], t);
      AllInRange(Without(s.rows[l], t), s.rows[l], |s.ts|);
    }
  }

  /** rt_timer_start. */
  function Start(s: State, t: nat, clock: nat, mask: nat): State
    requires RowsIn(s.rows, s.ts) && t < |s.ts|
  {
    RemovedIn(s, t);
    var ts1 := Armed(s, t, clock);
    var h := Height((s.starts + 1) % WORD_RANGE, |s.rows|, mask);
    State(ts1, InsertRows(ts1, RemoveRows(s.rows, t), t, h), s.starts + 1)
  }

  function Bottom(s: State): seq<nat> { if s.rows == [] then [] else s.rows[|s.rows| - 1] }

  /** The expiry test. */
  predicate Due(tm: Timer, clock: nat) { Minus(clock % WORD_RANGE, tm.timeout) < HALF }

  /** One round of rt_timer_check: the first timer fires. */
  function Fire(s: State, clock: nat, mask: nat): State
    requires RowsIn(s.rows, s.ts) && Bottom(s) != []
  {
    assert RowIn(s.rows[|s.rows| - 1], s.ts);
    var t := Bottom(s)[0];
    RemovedIn(s, t);
    var tm := s.ts[t];
    if tm.periodic && tm.active then Start(Unlink(s, t), t, clock, mask) else Unlink(s, t)
  }

  // ---------------------------------------------------------------- subsequences

  /** a can be obtained from b by leaving elements out. */
  predicate Sub(a: seq<nat>, b: seq<nat>)
    decreases |b|
  {
    if a == [] then true
    else if b == [] then false
    else if a[0] == b[0] then Sub(a[1..], b[1..])
    else Sub(a, b[1..])
  }

  lemma {:induction false} SubMembers(a: seq<nat>, b: seq<nat>)
    requires Sub(a, b)
    ensures |a| <= |b| && forall x {:trigger x in a} :: x in a ==> x in b
    decreases |b|
  {
    if a != [] {
      assert b == [b[0]] + b[1..];
      if a[0] == b[0] { SubMembers(a[1..], b[1..]); assert a == [a[0]] + a[1..]; } else { SubMembers(a, b[1..]); }
    }
  }

  lemma {:induction false} SubRefl(a: seq<nat>)
    ensures Sub(a, a)
  {
    if a != [] { SubRefl(a[1..]); }
  }

  lemma {:induction false} SubWithout(a: seq<nat>, b: seq<nat>, t: nat)
    requires Sub(a, b) && NoDup(b)
    ensures Sub(Without(a, t), Without(b, t))
    decreases |b|
  {
    if a != [] {
      HeadGone(b);
      if a[0] == b[0] {
        SubWithout(a[1..], b[1..], t);
        if a[0] != t {
          assert ([a[0]] + Without(a[1..], t))[1..] == Without(a[1..], t)
              && ([b[0]] + Without(b[1..], t))[1..] == Without(b[1..], t);
        }
      } else {
        SubWithout(a, b[1..], t);
        if b[0] != t { SubCons(Without(a, t), b[0], Without(b[1..], t)); }
      }
    }
  }

  /** Leaving out one more element. */
  lemma {:induction false} SubCons(a: seq<nat>, x: nat, b: seq<nat>)
    requires Sub(a, b)
    ensures Sub(a, [x] + b)
    decreases |b|, 1
  {
    assert ([x] + b)[1..] == b;
    if a != [] && a[0] == x { SubTail(a, b); }
  }

  lemma {:induction false} SubTail(a: seq<nat>, b: seq<nat>)
    requires Sub(a, b) && a != []
    ensures Sub(a[1..], b)
    decreases |b|, 0
  {
    if a[0] == b[0] {
      SubCons(a[1..], b[0], b[1..]);
      assert b == [b[0]] + b[1..];
    } else {
      SubTail(a, b[1..]);
      SubCons(a[1..], b[0], b[1..]);
      assert b == [b[0]] + b[1..];
    }
  }

  lemma {:induction false} SubInsertBelow(a: seq<nat>, b: seq<nat>, x: nat, k: nat)
    requires Sub(a, b) && k <= |b|
    ensures Sub(a, Insert(b, x, k))
    decreases k
  {
    var r := Insert(b, x, k);
    if k == 0 {
      assert r == [x] + b;
      SubCons(a, x, b);
    } else if a != [] {
      assert r[0] == b[0] && r[1..] == Insert(b[1..], x, k - 1);
      if a[0] == b[0] { SubInsertBelow(a[1..], b[1..], x, k - 1); } else { SubInsertBelow(a, b[1..], x, k - 1); }
    }
  }

  // ---------------------------------------------------------------- modular time

  /** Ticks less than half the range apart compare like the true times; just half the range
      behind no longer counts as behind. */
  lemma LaterIs(x: nat, y: nat)
    requires x - y <= HALF && y - x <= HALF
    ensures Later(x % WORD_RANGE, y % WORD_RANGE) <==> 0 < x - y < HALF
    ensures Minus(x % WORD_RANGE, y % WORD_RANGE) < HALF <==> 0 <= x - y < HALF
  {
    var d := x - y;
    var m := (x % WORD_RANGE) - (y % WORD_RANGE);
    ModDifference(x, y);
    if d >= 0 {
      SmallMod(d);
    } else {
      assert d % WORD_RANGE == d + WORD_RANGE by { SmallMod(d + WORD_RANGE); ModShift(d); }
    }
  }

  lemma ModDifference(x: nat, y: nat)
    ensures ((x % WORD_RANGE) - (y % WORD_RANGE)) % WORD_RANGE == (x - y) % WORD_RANGE
  {
    var qx, qy := x / WORD_RANGE, y / WORD_RANGE;
    assert x == qx * WORD_RANGE + x % WORD_RANGE && y == qy * WORD_RANGE + y % WORD_RANGE;
    assert x - y == (qx - qy) * WORD_RANGE + ((x % WORD_RANGE) - (y % WORD_RANGE));
  }

  lemma ModShift(d: int)
    ensures d % WORD_RANGE == (d + WORD_RANGE) % WORD_RANGE
  {
  }

  lemma SmallMod(d: int)
    requires 0 <= d < WORD_RANGE
    ensures d % WORD_RANGE == d
  {
  }

  // ---------------------------------------------------------------- the invariant

  /** Earlier deadline first, and on ties the timer started first. */
  predicate Before(u: Timer, v: Timer) { u.due < v.due || (u.due == v.due && u.serial < v.serial) }

  ghost predicate Sorted(ts: seq<Timer>, row: seq<nat>) {
    RowIn(row, ts) && forall i, j {:trigger row[i], row[j]} :: 0 <= i < j < |row| ==> Before(ts[row[i]], ts[row[j]])
  }

  /** The outstanding deadlines are less than half the tick range apart. */
  ghost predicate Near(ts: seq<Timer>, row: seq<nat>) {
    RowIn(row, ts) && forall i, j {:trigger row[i], row[j]} ::
        0 <= i < |row| && 0 <= j < |row| ==> ts[row[i]].due - ts[row[j]].due < HALF
  }

  ghost predicate TickOk(ts: seq<Timer>) {
    forall t {:trigger ts[t]} :: 0 <= t < |ts| ==> ts[t].timeout == ts[t].due % WORD_RANGE
  }

  ghost predicate Nested(rows: seq<seq<nat>>) {
    forall l {:trigger rows[l + 1]} :: 0 <= l && l + 1 < |rows| ==> Sub(rows[l], rows[l + 1])
  }

  ghost predicate Inv(s: State) {
    && |s.rows| > 0 && RowsIn(s.rows, s.ts) && TickOk(s.ts) && Nested(s.rows)
    && Sorted(s.ts, Bottom(s)) && Near(s.ts, Bottom(s))
    && (forall t {:trigger s.ts[t]} ::
        0 <= t < |s.ts| ==> (t in Bottom(s) <==> s.ts[t].active) && s.ts[t].serial <= s.starts)
  }

  lemma SortedNoDup(ts: seq<Timer>, row: seq<nat>)
    requires Sorted(ts, row)
    ensures NoDup(row)
  {
  }

  /** Every row is a subsequence of the bottom row. */
  lemma {:induction false} RowSub(rows: seq<seq<nat>>, l: nat)
    requires Nested(rows) && l < |rows|
    ensures Sub(rows[l], rows[|rows| - 1])
    decreases |rows| - l
  {
    if l + 1 < |rows| {
      RowSub(rows, l + 1);
      assert Sub(rows[l], rows[l + 1]);
      SubTrans(rows[l], rows[l + 1], rows[|rows| - 1]);
    } else {
      SubRefl(rows[l]);
    }
  }

  lemma {:induction false} SubTrans(a: seq<nat>, b: seq<nat>, c: seq<nat>)
    requires Sub(a, b) && Sub(b, c)
    ensures Sub(a, c)
    decreases |c|
  {
    if a != [] {
      if b[0] != c[0] {
        SubTrans(a, b, c[1..]);
        SubCons(a, c[0], c[1..]);
        assert c == [c[0]] + c[1..];
      } else if a[0] == b[0] {
        SubTrans(a[1..], b[1..], c[1..]);
      } else {
        SubTrans(a, b[1..], c[1..]);
      }
    }
  }

  lemma {:induction false} SubSorted(ts: seq<Timer>, a: seq<nat>, b: seq<nat>)
    requires Sub(a, b) && Sorted(ts, b)
    ensures Sorted(ts, a)
    decreases |b|
  {
    SubMembers(a, b);
    AllInRange(a, b, |ts|);
    if a != [] {
      SortedTail(ts, b);
      if a[0] == b[0] {
        SubSorted(ts, a[1..], b[1..]);
        SubMembers(a[1..], b[1..]);
        forall j | 0 < j < |a|
          ensures Before(ts[a[0]], ts[a[j]])
        {
          assert a[1..][j - 1] in a[1..];
          var m :| 0 <= m < |b[1..]| && b[1..][m] == a[j];
          assert b[m + 1] == a[j];
        }
        forall i, j | 0 < i < j < |a|
          ensures Before(ts[a[i]], ts[a[j]])
        {
          assert a[1..][i - 1] == a[i] && a[1..][j - 1] == a[j];
        }
      } else {
        SubSorted(ts, a, b[1..]);
      }
    }
  }

  lemma SortedTail(ts: seq<Timer>, row: seq<nat>)
    requires Sorted(ts, row) && row != []
    ensures Sorted(ts, row[1..])
  {
    forall i | 0 <= i < |row[1..]|
      ensures row[1..][i] == row[i + 1]
    {
    }
  }

  // ---------------------------------------------------------------- inserting

  /** x can be ordered against the row: armed last, and near enough in time. */
  ghost predicate Fits(ts: seq<Timer>, row: seq<nat>, x: nat) {
    && RowIn(row, ts) && x < |ts| && TickOk(ts)
    && forall i {:trigger row[i]} :: 0 <= i < |row| ==>
         row[i] != x && ts[row[i]].serial < ts[x].serial && ts[x].due - ts[row[i]].due < HALF
             && ts[row[i]].due - ts[x].due < HALF
  }

  /** Under that condition the linear scan stops at the first later deadline. */
  lemma {:induction false} SlotIs(ts: seq<Timer>, row: seq<nat>, x: nat, k: nat)
    requires Fits(ts, row, x) && k <= |row|
    ensures var r := Slot(ts, row, ts[x].timeout, k);
      && (forall i {:trigger row[i]} :: k <= i < r ==> ts[row[i]].due <= ts[x].due)
      && (r < |row| ==> ts[row[r]].due > ts[x].due)
    decreases |row| - k
  {
    if k < |row| {
      LaterIs(ts[row[k]].due, ts[x].due);
      if !Later(ts[row[k]].timeout, ts[x].timeout) { SlotIs(ts, row, x, k + 1); }
    }
  }

  /** So a scan that starts behind elements that are not later finds the same slot. */
  lemma {:induction false} SlotFrom(ts: seq<Timer>, row: seq<nat>, x: nat, k: nat)
    requires Fits(ts, row, x) && k <= |row| && forall i {:trigger row[i]} :: 0 <= i < k ==> ts[row[i]].due <= ts[x].due
    ensures Slot(ts, row, ts[x].timeout, k) == Slot(ts, row, ts[x].timeout, 0)
    decreases k
  {
    if k > 0 {
      SlotFrom(ts, row, x, k - 1);
      LaterIs(ts[row[k - 1]].due, ts[x].due);
    }
  }

  lemma InsertSorted(ts: seq<Timer>, row: seq<nat>, x: nat)
    requires Sorted(ts, row) && Fits(ts, row, x)
    ensures Sorted(ts, Insert(row, x, Slot(ts, row, ts[x].timeout, 0)))
  {
    var k := Slot(ts, row, ts[x].timeout, 0);
    SlotIs(ts, row, x, 0);
    var r := Insert(row, x, k);
    forall i, j | 0 <= i < j < |r|
      ensures Before(ts[r[i]], ts[r[j]])
    {
      if i == k { assert j - 1 == k || Before(ts[row[k]], ts[row[j - 1]]); }
    }
  }

  lemma InsertNear(ts: seq<Timer>, row: seq<nat>, x: nat, k: nat)
    requires Near(ts, row) && Fits(ts, row, x) && k <= |row|
    ensures Near(ts, Insert(row, x, k))
  {
  }

  lemma FitsTail(ts: seq<Timer>, row: seq<nat>, x: nat)
    requires Fits(ts, row, x) && row != []
    ensures RowIn(row, ts) && RowIn(row[1..], ts) && x < |ts| && Fits(ts, row[1..], x)
    ensures Slot(ts, row, ts[x].timeout, 0) == if Later(ts[row[0]].timeout, ts[x].timeout) then 0
        else 1 + Slot(ts, row[1..], ts[x].timeout, 0)
  {
    forall i | 0 <= i < |row[1..]|
      ensures row[1..][i] == row[i + 1]
    {
    }
    SlotShift(ts, row, ts[x].timeout, 0);
  }

  lemma {:induction false} SlotShift(ts: seq<Timer>, row: seq<nat>, tick: nat, k: nat)
    requires RowIn(row, ts) && row != [] && k < |row|
    ensures RowIn(row[1..], ts) && Slot(ts, row, tick, k + 1) == 1 + Slot(ts, row[1..], tick, k)
    decreases |row| - k
  {
    assert forall i :: 0 <= i < |row[1..]| ==> row[1..][i] == row[i + 1];
    if k + 1 < |row| { SlotShift(ts, row, tick, k + 1); }
  }

  /** Inserting x at its slot into a row and into the row below keeps the one a
      subsequence of the other. */
  lemma {:induction false} SubInsert(ts: seq<Timer>, a: seq<nat>, b: seq<nat>, x: nat)
    requires RowIn(a, ts) && RowIn(b, ts) && x < |ts|
    requires Sub(a, b) && Sorted(ts, b) && Fits(ts, b, x) && Fits(ts, a, x)
    ensures Sub(Insert(a, x, Slot(ts, a, ts[x].timeout, 0)), Insert(b, x, Slot(ts, b, ts[x].timeout, 0)))
    decreases |b|
  {
    hide Sorted, Fits, Later;
    var i, j := Slot(ts, a, ts[x].timeout, 0), Slot(ts, b, ts[x].timeout, 0);
    var ra, rb := Insert(a, x, i), Insert(b, x, j);
    if b == [] {
      assert ra == [x] && rb == [x] && [x][1..] == [];
    } else {
      FitsTail(ts, b, x);
      SortedTail(ts, b);
      if a != [] { FitsTail(ts, a, x); }
      if j == 0 {
        NoneBefore(ts, a, b, x);
        assert ra == [x] + a && rb == [x] + b && ra[1..] == a && rb[1..] == b;
      } else {
        assert rb == [b[0]] + Insert(b[1..], x, j - 1);
        if a != [] && a[0] == b[0] {
          SubInsert(ts, a[1..], b[1..], x);
          assert ra == [a[0]] + Insert(a[1..], x, i - 1);
          assert ra[1..] == Insert(a[1..], x, i - 1) && rb[1..] == Insert(b[1..], x, j - 1);
        } else {
          SubInsert(ts, a, b[1..], x);
          SubCons(ra, b[0], Insert(b[1..], x, j - 1));
        }
      }
    }
  }

  lemma NoneBefore(ts: seq<Timer>, a: seq<nat>, b: seq<nat>, x: nat)
    requires Sub(a, b) && Sorted(ts, b) && Fits(ts, b, x) && Fits(ts, a, x) && Slot(ts, b, ts[x].timeout, 0) == 0
        && b != []
    ensures Slot(ts, a, ts[x].timeout, 0) == 0
  {
    SlotIs(ts, b, x, 0);
    if a != [] {
      SubMembers(a, b);
      assert a[0] in a;
      var m :| 0 <= m < |b| && b[m] == a[0];
      assert m > 0 ==> Before(ts[b[0]], ts[b[m]]);
      LaterIs(ts[a[0]].due, ts[x].due);
    }
  }

  // ---------------------------------------------------------------- start and stop

  lemma {:induction false} WithoutSub(a: seq<nat>, t: nat)
    ensures Sub(Without(a, t), a)
  {
    if a != [] {
      WithoutSub(a[1..], t);
      assert a == [a[0]] + a[1..];
      if a[0] == t {
        SubCons(Without(a, t), a[0], a[1..]);
      } else {
        assert ([a[0]] + Without(a[1..], t))[1..] == Without(a[1..], t);
      }
    }
  }

  lemma WithoutSorted(ts: seq<Timer>, row: seq<nat>, t: nat)
    requires Sorted(ts, row)
    ensures Sorted(ts, Without(row, t)) && (Near(ts, row) ==> Near(ts, Without(row, t)))
  {
    var r := Without(row, t);
    WithoutSub(row, t);
    SubSorted(ts, r, row);
    WithoutMembers(row, t);
    if Near(ts, row) {
      forall i, j | 0 <= i < |r| && 0 <= j < |r|
        ensures ts[r[i]].due - ts[r[j]].due < HALF
      {
        assert r[i] in r && r[j] in r;
        var a :| 0 <= a < |row| && row[a] == r[i];
        var b :| 0 <= b < |row| && row[b] == r[j];
      }
    }
  }

  lemma RemovedNested(rows: seq<seq<nat>>, t: nat)
    requires Nested(rows) && |rows| > 0 && NoDup(rows[|rows| - 1])
    ensures Nested(RemoveRows(rows, t))
  {
    forall l | 0 <= l && l + 1 < |rows|
      ensures Sub(Without(rows[l], t), Without(rows[l + 1], t))
    {
      RowSub(rows, l + 1);
      SubNoDup(rows[l + 1], rows[|rows| - 1]);
      assert Sub(rows[l], rows[l + 1]);
      SubWithout(rows[l], rows[l + 1], t);
    }
  }

  lemma {:induction false} SubNoDup(a: seq<nat>, b: seq<nat>)
    requires Sub(a, b) && NoDup(b)
    ensures NoDup(a)
    decreases |b|
  {
    if a != [] {
      HeadGone(b);
      if a[0] == b[0] {
        SubNoDup(a[1..], b[1..]);
        SubMembers(a[1..], b[1..]);
        InsertMembers(a[1..], a[0], 0);
        assert Insert(a[1..], a[0], 0) == a;
      } else {
        SubNoDup(a, b[1..]);
      }
    }
  }

  /** What a start at this time may rely on: the asserted bound on the period, and that
      the new deadline is less than half the tick range from every outstanding one. */
  ghost predicate CanStart(s: State, t: nat, clock: nat) {
    && RowIn(Bottom(s), s.ts) && t < |s.ts| && s.ts[t].init < HALF
    && forall i {:trigger Bottom(s)[i]} :: 0 <= i < |Bottom(s)| && Bottom(s)[i] != t ==>
         clock + s.ts[t].init - s.ts[Bottom(s)[i]].due < HALF && s.ts[Bottom(s)[i]].due - clock - s.ts[t].init < HALF
  }

  /** Sorting and nearness only look at the timers in the row. */
  lemma SameRow(ts: seq<Timer>, ts1: seq<Timer>, row: seq<nat>)
    requires RowIn(row, ts) && |ts1| == |ts|
    requires forall i {:trigger row[i]} ::
        0 <= i < |row| ==> ts1[row[i]].due == ts[row[i]].due && ts1[row[i]].serial == ts[row[i]].serial
    ensures Sorted(ts, row) ==> Sorted(ts1, row)
    ensures Near(ts, row) ==> Near(ts1, row)
  {
  }

  /** Row l without t: ordered, and ready to take t at the new deadline. */
  lemma RowReady(s: State, t: nat, clock: nat, l: nat)
    requires Inv(s) && CanStart(s, t, clock) && l < |s.rows|
    ensures var row, ts1 := Without(s.rows[l], t), Armed(s, t, clock);
      RowIn(row, ts1) && Sorted(ts1, row) && Near(ts1, row) && Fits(ts1, row, t)
  {
    var row, ts1, bottom := Without(s.rows[l], t), Armed(s, t, clock), Bottom(s);
    RowSub(s.rows, l);
    SubSorted(s.ts, s.rows[l], bottom);
    SubMembers(s.rows[l], bottom);
    WithoutSorted(s.ts, s.rows[l], t);
    WithoutMembers(s.rows[l], t);
    forall i | 0 <= i < |row|
      ensures row[i] != t && ts1[row[i]] == s.ts[row[i]] && ts1[t].due - ts1[row[i]].due < HALF
          && ts1[row[i]].due - ts1[t].due < HALF
    {
      assert row[i] in row;
      assert row[i] in s.rows[l] && row[i] in bottom;
      var m :| 0 <= m < |bottom| && bottom[m] == row[i];
    }
    SubNear(s.ts, row, s.rows[l], bottom);
    SameRow(s.ts, ts1, row);
  }

  lemma SubNear(ts: seq<Timer>, r: seq<nat>, a: seq<nat>, b: seq<nat>)
    requires Near(ts, b) && RowIn(r, ts) && (forall x {:trigger x in r} :: x in r ==> x in a)
        && (forall x {:trigger x in a} :: x in a ==> x in b)
    ensures Near(ts, r)
  {
    forall i, j | 0 <= i < |r| && 0 <= j < |r|
      ensures ts[r[i]].due - ts[r[j]].due < HALF
    {
      assert r[i] in r && r[j] in r;
      var m :| 0 <= m < |b| && b[m] == r[i];
      var n :| 0 <= n < |b| && b[n] == r[j];
    }
  }

  /** Sub, and a row with x at its slot if it is to have it, as single steps. */
  predicate Thins(a: seq<nat>, b: seq<nat>) { Sub(a, b) }

  function SlottedIf(ts: seq<Timer>, row: seq<nat>, x: nat, has: bool): seq<nat>
    requires RowIn(row, ts) && x < |ts|
  {
    if has then Insert(row, x, Slot(ts, row, ts[x].timeout, 0)) else row
  }

  /** One row and the row below, with x inserted into both, the lower or neither. */
  lemma PairInserted(ts: seq<Timer>, a: seq<nat>, b: seq<nat>, x: nat, both: bool, lower: bool)
    requires RowIn(a, ts) && RowIn(b, ts) && x < |ts| && Thins(a, b) && Sorted(ts, b) && Fits(ts, b, x)
        && Fits(ts, a, x) && (both ==> lower)
    ensures Thins(SlottedIf(ts, a, x, both), SlottedIf(ts, b, x, lower))
  {
    if both {
      SubInsert(ts, a, b, x);
    } else if lower {
      SubInsertBelow(a, b, x, Slot(ts, b, ts[x].timeout, 0));
    }
  }

  /** Row l after a start. */
  lemma StartRow(s: State, t: nat, clock: nat, mask: nat, l: nat)
    requires RowsIn(s.rows, s.ts) && t < |s.ts| && l < |s.rows| && RowIn(Without(s.rows[l], t), Armed(s, t, clock))
    ensures var row, ts1 := Without(s.rows[l], t), Armed(s, t, clock);
      |Start(s, t, clock, mask).rows| == |s.rows| && t < |ts1|
      && Start(s, t, clock, mask).rows[l] ==
          SlottedIf(ts1, row, t, l + Height((s.starts + 1) % WORD_RANGE, |s.rows|, mask) >= |s.rows|)
  {
    hide Height;
    RemovedIn(s, t);
  }

  lemma StartRows(s: State, t: nat, clock: nat, mask: nat, l: nat)
    requires Inv(s) && CanStart(s, t, clock) && l + 1 < |s.rows| && RowsIn(s.rows, s.ts) && t < |s.ts|
    ensures var r := Start(s, t, clock, mask).rows; |r| == |s.rows| && Thins(r[l], r[l + 1])
  {
    hide Inv, Fits, Sorted, Near, CanStart, RowsIn, Armed, Start, Thins, SlottedIf;
    InvRows(s);
    RowReady(s, t, clock, l);
    RowReady(s, t, clock, l + 1);
    StartRow(s, t, clock, mask, l);
    StartRow(s, t, clock, mask, l + 1);
    RemovedThins(s.rows, t, l);
    var h := Height((s.starts + 1) % WORD_RANGE, |s.rows|, mask);
    PairInserted(Armed(s, t, clock), Without(s.rows[l], t), Without(s.rows[l + 1], t), t,
        l + h >= |s.rows|, l + 1 + h >= |s.rows|);
  }

  lemma RemovedThins(rows: seq<seq<nat>>, t: nat, l: nat)
    requires Nested(rows) && l + 1 < |rows| && NoDup(rows[|rows| - 1])
    ensures Thins(Without(rows[l], t), Without(rows[l + 1], t))
  {
    RemovedNested(rows, t);
    assert RemoveRows(rows, t)[l + 1] == Without(rows[l + 1], t);
  }

  lemma StartNested(s: State, t: nat, clock: nat, mask: nat)
    requires Inv(s) && CanStart(s, t, clock)
    ensures Nested(Start(s, t, clock, mask).rows)
  {
    hide Inv, Start, RowsIn;
    InvRows(s);
    var r := Start(s, t, clock, mask).rows;
    SameLevels(s, t, clock, mask);
    forall l | 0 <= l && l + 1 < |r|
      ensures Sub(r[l], r[l + 1])
    {
      StartRows(s, t, clock, mask, l);
      assert Thins(r[l], r[l + 1]);
    }
  }

  lemma SameLevels(s: State, t: nat, clock: nat, mask: nat)
    requires RowsIn(s.rows, s.ts) && t < |s.ts|
    ensures |Start(s, t, clock, mask).rows| == |s.rows|
  {
  }

  lemma InvRows(s: State)
    requires Inv(s)
    ensures |s.rows| > 0 && RowsIn(s.rows, s.ts) && Nested(s.rows) && NoDup(Bottom(s)) && RowIn(Bottom(s), s.ts)
  {
    assert RowIn(s.rows[|s.rows| - 1], s.ts);
  }

  /** The timer goes behind every deadline that is not later, on the bottom row. */
  lemma StartBottom(s: State, t: nat, clock: nat, mask: nat)
    requires Inv(s) && CanStart(s, t, clock)
    ensures var row, s1 := Without(Bottom(s), t), Start(s, t, clock, mask);
      && RowIn(row, s1.ts) && Bottom(s1) == Insert(row, t, Slot(s1.ts, row, s1.ts[t].timeout, 0))
      && |s1.rows| == |s.rows| && |s1.ts| == |s.ts|
  {
    RowReady(s, t, clock, |s.rows| - 1);
  }

  lemma StartKeeps(s: State, t: nat, clock: nat, mask: nat)
    requires Inv(s) && CanStart(s, t, clock)
    ensures Inv(Start(s, t, clock, mask))
  {
    hide Fits, Slot, Nested;
    var s1, row := Start(s, t, clock, mask), Without(Bottom(s), t);
    var ts1 := Armed(s, t, clock);
    StartNested(s, t, clock, mask);
    StartBottom(s, t, clock, mask);
    RowReady(s, t, clock, |s.rows| - 1);
    InsertSorted(ts1, row, t);
    InsertNear(ts1, row, t, Slot(ts1, row, ts1[t].timeout, 0));
    WithoutMembers(Bottom(s), t);
    InsertMembers(row, t, Slot(ts1, row, ts1[t].timeout, 0));
    InsertedIn(s, t, clock, mask);
  }

  lemma InsertedIn(s: State, t: nat, clock: nat, mask: nat)
    requires RowsIn(s.rows, s.ts) && t < |s.ts|
    ensures RowsIn(Start(s, t, clock, mask).rows, Start(s, t, clock, mask).ts)
  {
    RemovedIn(s, t);
    var ts1, rows := Armed(s, t, clock), RemoveRows(s.rows, t);
    assert RowsIn(rows, ts1);
    var h := Height((s.starts + 1) % WORD_RANGE, |s.rows|, mask);
    var r := InsertRows(ts1, rows, t, h);
    forall l | 0 <= l < |r|
      ensures RowIn(r[l], ts1)
    {
      assert RowIn(rows[l], ts1);
      InsertIn(rows[l], t, Slot(ts1, rows[l], ts1[t].timeout, 0), |ts1|);
    }
  }

  lemma InsertIn(row: seq<nat>, t: nat, k: nat, n: nat)
    requires InRange(row, n) && t < n && k <= |row|
    ensures InRange(Insert(row, t, k), n)
  {
  }

  lemma UnlinkKeeps(s: State, t: nat)
    requires Inv(s) && t < |s.ts|
    ensures Inv(Unlink(s, t))
  {
    hide Nested;
    var s1 := Unlink(s, t);
    InvRows(s);
    RemovedNested(s.rows, t);
    RemovedIn(s, t);
    WithoutSorted(s.ts, Bottom(s), t);
    WithoutMembers(Bottom(s), t);
    SameRow(s.ts, s1.ts, Bottom(s1));
  }
}
