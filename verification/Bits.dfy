/** Fixed-width bit operations on integers, written out bit by bit so that the shifts, masks and
    `|` of the wire format and of the snowflake layout can be related to plain arithmetic. */
module Bits {
  const TWO_64: int := 0x1_0000_0000_0000_0000

  type uint64 = n: int | 0 <= n < TWO_64

  function Pow2(k: nat): (p: nat)
    ensures p > 0
  {
    if k == 0 then 1 else 2 * Pow2(k - 1)
  }

  /** Bitwise or of two natural numbers. */
  function Or(a: nat, b: nat): nat
    decreases a + b
  {
    if a == 0 && b == 0 then 0
    else (if a % 2 == 1 || b % 2 == 1 then 1 else 0) + 2 * Or(a / 2, b / 2)
  }

  /** Bitwise and of two natural numbers. */
  function And(a: nat, b: nat): nat
    decreases a + b
  {
    if a == 0 || b == 0 then 0
    else (if a % 2 == 1 && b % 2 == 1 then 1 else 0) + 2 * And(a / 2, b / 2)
  }

  /** The 64-bit pattern of `x << k`, for a signed or unsigned 64-bit `x`. */
  function Shl64(x: int, k: nat): uint64 {
    x * Pow2(k) % TWO_64
  }

  /** The signed reading of a 64-bit pattern. */
  function Signed64(x: uint64): int {
    if x < TWO_64 / 2 then x else x - TWO_64
  }

  lemma {:induction false} OrZero(a: nat)
    ensures Or(a, 0) == a
    decreases a
  {
    if a > 0 {
      OrZero(a / 2);
    }
  }

  /** Or-ing a value into the zero bits below a shifted one is addition. */
  lemma {:induction false} OrDisjoint(a: nat, b: nat, k: nat)
    requires b < Pow2(k)
    ensures a * Pow2(k) >= 0
    ensures Or(a * Pow2(k), b) == a * Pow2(k) + b
    decreases k
  {
    if k == 0 {
      OrZero(a);
    } else {
      var half := a * Pow2(k - 1);
      assert a * Pow2(k) == 2 * half;
      OrDisjoint(a, b / 2, k - 1);
      if half == 0 && b == 0 {
      } else {
        assert (2 * half) / 2 == half && (2 * half) % 2 == 0;
      }
    }
  }

  lemma {:induction false} OrBelow(x: nat, a: nat, b: nat, k: nat)
    requires x == a * Pow2(k) && b < Pow2(k)
    ensures Or(x, b) == x + b
  {
    OrDisjoint(a, b, k);
  }

  /** Masking with 2^k - 1 is reduction modulo 2^k. */
  lemma {:induction false} AndMask(a: nat, k: nat)
    ensures And(a, Pow2(k) - 1) == a % Pow2(k)
    decreases k
  {
    if k == 0 {
    } else {
      var p := Pow2(k - 1);
      AndMask(a / 2, k - 1);
      AndHalves(a, 2 * p - 1);
      ModDouble(a, p);
    }
  }

  lemma {:induction false} AndHalves(a: nat, b: nat)
    requires b % 2 == 1
    ensures And(a, b) == a % 2 + 2 * And(a / 2, b / 2)
  {
  }

  lemma {:induction false} ModDouble(a: nat, p: nat)
    requires p > 0
    ensures a % (2 * p) == a % 2 + 2 * ((a / 2) % p)
  {
    var h := a / 2;
    var q, r := h / p, h % p;
    assert h == p * q + r;
    assert a == (2 * p) * q + (2 * r + a % 2) by {
      assert (2 * p) * q == 2 * (p * q);
    }
    DivModUnique(a, 2 * p, q, 2 * r + a % 2);
  }

  lemma MultipleAtLeast(d: int, n: int)
    requires d > 0 && n >= 1
    ensures d * n >= d && d * -n <= -d
  {
  }

  /** Quotient and remainder are determined by the division equation. */
  lemma {:induction false} DivModUnique(a: int, d: int, q: int, r: int)
    requires 0 <= r < d
    requires a == d * q + r
    ensures a / d == q && a % d == r
  {
    var q', r' := a / d, a % d;
    var gap := q - q';
    assert d * gap == r' - r by {
      assert d * gap == d * q - d * q';
    }
    if gap >= 1 {
      MultipleAtLeast(d, gap);
      assert false;
    } else if gap <= -1 {
      MultipleAtLeast(d, -gap);
      assert false;
    }
  }
}
