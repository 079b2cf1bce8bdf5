/** Bitwise operations on unsigned words, as naturals. */
module Bits {
  function And(a: nat, b: nat): nat {
    if a == 0 || b == 0 then 0 else 2 * And(a / 2, b / 2) + (if a % 2 == 1 && b % 2 == 1 then 1 else 0)
  }

  function Or(a: nat, b: nat): nat {
    if a == 0 then b else if b == 0 then a else 2 * Or(a / 2, b / 2) + (if a % 2 == 1 || b % 2 == 1 then 1 else 0)
  }

  /** a >> k. */
  function ShiftRight(a: nat, k: nat): nat
    decreases k
  {
    if k == 0 then a else ShiftRight(a / 2, k - 1)
  }

  predicate TwoPower(n: nat) { n == 1 || (n > 1 && n % 2 == 0 && TwoPower(n / 2)) }

  lemma {:induction false} OrSelf(a: nat)
    ensures Or(a, a) == a
  {
    if a > 0 { OrSelf(a / 2); }
  }

  /** The test of slab.c: filling up all bits below the highest gives the next power of
      two less one exactly for a power of two. */
  lemma {:induction false} FilledIff(n: nat)
    requires n > 0
    ensures Or(n, n - 1) + 1 == 2 * n <==> TwoPower(n)
  {
    if n % 2 == 1 {
      OrSelf(n / 2);
      assert (n - 1) / 2 == n / 2;
    } else {
      FilledIff(n / 2);
      assert (n - 1) / 2 == n / 2 - 1;
    }
  }

  /** A power of two is a multiple of every smaller one. */
  lemma {:induction false} PowerMultiple(n: nat, u: nat) returns (q: nat)
    requires TwoPower(n) && TwoPower(u) && u <= n
    ensures q > 0 && n == u * q
  {
    if u == 1 {
      q := n;
    } else {
      q := PowerMultiple(n / 2, u / 2);
      assert n == 2 * (n / 2) == 2 * (u / 2 * q) == 2 * (u / 2) * q;
    }
  }

  lemma Scaled(c: nat, a: int, b: int)
    ensures a <= b ==> c * a <= c * b
  {
  }

  lemma Shifted(n: nat, c: nat)
    requires c > 0
    ensures (n + c) % c == n % c
  {
    var q, r := n / c, n % c;
    var q2, r2 := (n + c) / c, (n + c) % c;
    assert c * (q + 1) + r == n + c == c * q2 + r2;
    Scaled(c, q + 2, q2);
    Scaled(c, q2, q);
  }

  /** Adding a multiple of c changes nothing modulo c. */
  lemma {:induction false} Offset(n: nat, c: nat, q: nat)
    requires c > 0
    ensures (n + c * q) % c == n % c
  {
    if q > 0 {
      Offset(n, c, q - 1);
      assert n + c * q == n + c * (q - 1) + c;
      Shifted(n + c * (q - 1), c);
    }
  }
}
