/** rt-thread/src/kservice.c, __rt_ffs, and the single-bit updates of the scheduler's
    bitmaps, on unsigned words. */
module Bitmap {

  /** Bit k of v is set. */
  predicate Bit(v: nat, k: nat) { BitAt(v, k) }

  predicate BitAt(v: nat, k: nat)
    decreases k
  {
    if k == 0 then v % 2 == 1 else BitAt(v / 2, k - 1)
  }

  /** v | 1 << k. */
  function SetBit(v: nat, k: nat): nat
    decreases k
  {
    if k == 0 then v - v % 2 + 1 else 2 * SetBit(v / 2, k - 1) + v % 2
  }

  /** v & ~(1 << k). */
  function ClearBit(v: nat, k: nat): nat
    decreases k
  {
    if k == 0 then v - v % 2 else 2 * ClearBit(v / 2, k - 1) + v % 2
  }

  /** 1 << k. */
  function Power(k: nat): nat { if k == 0 then 1 else 2 * Power(k - 1) }

  lemma {:induction false} SetBitAt(v: nat, k: nat, j: nat)
    ensures Bit(SetBit(v, k), j) == (j == k || Bit(v, j))
    decreases k
  {
    if k > 0 && j > 0 { SetBitAt(v / 2, k - 1, j - 1); }
  }

  lemma {:induction false} ClearBitAt(v: nat, k: nat, j: nat)
    ensures Bit(ClearBit(v, k), j) == (j != k && Bit(v, j))
    decreases k
  {
    if k > 0 && j > 0 { ClearBitAt(v / 2, k - 1, j - 1); }
  }

  /** The updates stay inside a word of n bits. */
  lemma {:induction false} UpdateFits(v: nat, k: nat, n: nat)
    requires v < Power(n) && k < n
    ensures SetBit(v, k) < Power(n) && ClearBit(v, k) < Power(n)
    decreases k
  {
    if k > 0 { UpdateFits(v / 2, k - 1, n - 1); }
  }

  lemma {:induction false} NoBits(k: nat)
    ensures !Bit(0, k)
  {
    if k > 0 { NoBits(k - 1); }
  }

  // ---------------------------------------------------------------- find first set

  /** __lowest_bit_bitmap: the sixteen rows differ in their first entry only. */
  const ROW_HEADS: seq<nat> := [0, 4, 5, 4, 6, 4, 5, 4, 7, 4, 5, 4, 6, 4, 5, 4]
  const ROW: seq<nat> := [0, 0, 1, 0, 2, 0, 1, 0, 3, 0, 1, 0, 2, 0, 1, 0]

  function LowestBitBitmap(b: nat): nat
    requires b < 0x100
  {
    if b % 0x10 == 0 then ROW_HEADS[b / 0x10] else ROW[b % 0x10]
  }

  /** __rt_ffs. */
  function Ffs(v: nat): nat
    requires v < 0x1_0000_0000
  {
    if v == 0 then 0
    else if v % 0x100 != 0 then LowestBitBitmap(v % 0x100) + 1
    else if v / 0x100 % 0x100 != 0 then LowestBitBitmap(v / 0x100 % 0x100) + 9
    else if v / 0x1_0000 % 0x100 != 0 then LowestBitBitmap(v / 0x1_0000 % 0x100) + 17
    else LowestBitBitmap(v / 0x100_0000 % 0x100) + 25
  }

  /** Index of the least significant set bit. */
  function Lowest(v: nat): nat
    requires v > 0
  {
    if v % 2 == 1 then 0 else 1 + Lowest(v / 2)
  }

  lemma {:induction false} LowestIs(v: nat)
    requires v > 0
    ensures Bit(v, Lowest(v)) && forall k {:trigger Bit(v, k)} :: 0 <= k < Lowest(v) ==> !Bit(v, k)
  {
    if v % 2 == 0 {
      LowestIs(v / 2);
      forall k | 0 <= k < Lowest(v)
        ensures !Bit(v, k)
      {
        if k > 0 { assert !Bit(v / 2, k - 1); }
      }
    }
  }

  lemma {:induction false} LowestBound(v: nat, n: nat)
    requires 0 < v < Power(n)
    ensures Lowest(v) < n
  {
    if v % 2 == 0 { LowestBound(v / 2, n - 1); }
  }

  lemma LowestNibble(b: nat)
    requires 0 < b < 0x10
    ensures ROW[b] == Lowest(b)
  {
    LowestSmall(b);
  }

  lemma LowestSmall(b: nat)
    requires 0 < b < 0x10
    ensures Lowest(b) == if b % 2 == 1 then 0 else if b % 4 == 2 then 1 else if b == 8 then 3 else 2
  {
    assert Lowest(b) == if b % 2 == 1 then 0 else 1 + Lowest(b / 2);
    if b % 2 == 0 {
      assert Lowest(b / 2) == if b / 2 % 2 == 1 then 0 else 1 + Lowest(b / 2 / 2);
      if b % 4 == 0 { assert Lowest(b / 4) == if b / 4 % 2 == 1 then 0 else 1 + Lowest(b / 8); }
    }
  }

  /** Zeros at the bottom shift the answer. */
  lemma {:induction false} LowestShift(v: nat, low: nat, n: nat)
    requires low < Power(n)
    ensures low == 0 && v > 0 ==> Lowest(v * Power(n) + low) == n + Lowest(v)
    ensures low > 0 ==> Lowest(v * Power(n) + low) == Lowest(low)
    decreases n
  {
    if n > 0 {
      LowestShift(v, low / 2, n - 1);
      var w := v * Power(n) + low;
      Doubling(v, n);
      assert w / 2 == v * Power(n - 1) + low / 2 && w % 2 == low % 2;
    }
  }

  lemma Doubling(v: nat, n: nat)
    requires n > 0
    ensures v * Power(n) == 2 * (v * Power(n - 1))
  {
  }

  lemma LowestByte(b: nat)
    requires 0 < b < 0x100
    ensures LowestBitBitmap(b) == Lowest(b)
  {
    var hi, lo := b / 0x10, b % 0x10;
    assert Power(4) == 0x10 by { assert Power(3) == 8; }
    LowestShift(hi, lo, 4);
    assert hi * 0x10 + lo == b;
    if lo == 0 {
      LowestNibble(hi);
      assert ROW_HEADS[hi] == 4 + ROW[hi];
    } else {
      LowestNibble(lo);
    }
  }

  lemma PeelByte(v: nat)
    requires v > 0
    ensures Lowest(v) == if v % 0x100 != 0 then LowestBitBitmap(v % 0x100) else 8 + Lowest(v / 0x100)
  {
    assert Power(4) == 16 by { assert Power(3) == 8; }
    assert Power(8) == 0x100 by { assert Power(6) == 64; }
    LowestShift(v / 0x100, v % 0x100, 8);
    if v % 0x100 != 0 { LowestByte(v % 0x100); }
  }

  /** The table-driven __rt_ffs finds the least significant set bit, counted from 1,
      and returns 0 exactly for 0. */
  lemma FfsIsLowest(v: nat)
    requires v < 0x1_0000_0000
    ensures Ffs(v) == if v == 0 then 0 else 1 + Lowest(v)
  {
    hide Lowest, LowestBitBitmap;
    if v != 0 {
      PeelByte(v);
      if v % 0x100 == 0 {
        var v1 := v / 0x100;
        PeelByte(v1);
        assert v / 0x1_0000 == v1 / 0x100;
        if v1 % 0x100 == 0 {
          var v2 := v1 / 0x100;
          PeelByte(v2);
          assert v / 0x100_0000 == v2 / 0x100;
          if v2 % 0x100 == 0 { PeelByte(v2 / 0x100); }
        }
      }
    }
  }
}
