/**
 Fixed-width bit operators of the source, written out over natural numbers, with the
 facts about them that the packet filter relies on.
 */
module Bits {
  type byte = x: int | 0 <= x < 0x100
  type u32 = x: int | 0 <= x < 0x1_0000_0000

  function Pow2(k: nat): (r: nat)
    ensures r >= 1
  {
    if k == 0 then 1 else 2 * Pow2(k - 1)
  }

  /** `x >> k` on an unsigned value: k halvings. */
  function Shr(x: nat, k: nat): nat {
    if k == 0 then x else Shr(x / 2, k - 1)
  }

  function BitAnd(a: nat, b: nat): nat {
    if a == 0 || b == 0 then 0 else 2 * BitAnd(a / 2, b / 2) + (a % 2) * (b % 2)
  }

  function BitOr(a: nat, b: nat): nat
    decreases a + b
  {
    if a == 0 && b == 0 then 0
    else 2 * BitOr(a / 2, b / 2) + (if a % 2 + b % 2 == 0 then 0 else 1)
  }

  /** `!x` on a u8. */
  function Not8(x: byte): byte {
    255 - x
  }

  lemma {:induction false} Pow2Monotone(j: nat, k: nat)
    requires j <= k
    ensures Pow2(j) <= Pow2(k)
    decreases k
  {
    if j < k {
      Pow2Monotone(j, k - 1);
    }
  }

  lemma MulDouble(h: nat, m: nat)
    ensures h * (2 * m) == 2 * (h * m)
  {
  }

  lemma MulAtLeast(t: int, d: nat)
    requires t >= 1
    ensures t * d >= d
  {
  }

  /** A quotient is pinned down by the multiple of the divisor just below. */
  lemma QuotientUnique(x: nat, d: nat, q: int)
    requires d > 0 && q * d <= x < q * d + d
    ensures x / d == q
  {
    var q', r := x / d, x % d;
    assert x == q' * d + r;
    assert (q - q') * d == q * d - q' * d;
    assert (q' - q) * d == q' * d - q * d;
    if q > q' {
      MulAtLeast(q - q', d);
    } else if q < q' {
      MulAtLeast(q' - q, d);
    }
  }

  lemma {:induction false} ShrBounds(x: nat, k: nat)
    ensures Shr(x, k) * Pow2(k) <= x < Shr(x, k) * Pow2(k) + Pow2(k)
  {
    if k > 0 {
      ShrBounds(x / 2, k - 1);
      var h, m := Shr(x / 2, k - 1), Pow2(k - 1);
      MulDouble(h, m);
    }
  }

  lemma ShrIsDivision(x: nat, k: nat)
    ensures Shr(x, k) == x / Pow2(k)
  {
    ShrBounds(x, k);
    QuotientUnique(x, Pow2(k), Shr(x, k));
  }

  lemma {:induction false} ShrShr(x: nat, a: nat, b: nat)
    ensures Shr(Shr(x, a), b) == Shr(x, a + b)
  {
    if a > 0 {
      ShrShr(x / 2, a - 1, b);
    }
  }

  /** The low bits of a mask whose k lowest bits are clear contribute nothing. */
  lemma AndDouble(a: nat, m: nat)
    ensures BitAnd(a, 2 * m) == 2 * BitAnd(a / 2, m)
  {
    assert (2 * m) / 2 == m && (2 * m) % 2 == 0;
  }

  lemma AndOdd(a: nat, m: nat)
    ensures BitAnd(a, 2 * m + 1) == 2 * BitAnd(a / 2, m) + a % 2
  {
    assert (2 * m + 1) / 2 == m && (2 * m + 1) % 2 == 1;
  }

  lemma {:induction false} AndAllOnes(a: nat, w: nat)
    requires a < Pow2(w)
    ensures BitAnd(a, Pow2(w) - 1) == a
  {
    if w > 0 {
      AndAllOnes(a / 2, w - 1);
      AndOdd(a, Pow2(w - 1) - 1);
    }
  }

  /** Masking with the complement of the low k bits forgets exactly those bits. */
  lemma {:induction false} AndHighMask(a: nat, w: nat, k: nat)
    requires k <= w && a < Pow2(w)
    ensures Pow2(k) <= Pow2(w)
    ensures BitAnd(a, Pow2(w) - Pow2(k)) == Shr(a, k) * Pow2(k)
  {
    if k == 0 {
      AndAllOnes(a, w);
    } else {
      var h, m, top := Shr(a / 2, k - 1), Pow2(k - 1), Pow2(w - 1);
      AndHighMask(a / 2, w - 1, k - 1);
      AndDouble(a, top - m);
      assert Shr(a, k) == h && Pow2(k) == 2 * m && Pow2(w) - Pow2(k) == 2 * (top - m);
      MulDouble(h, m);
    }
  }

  lemma OrDouble(a: nat, i: nat)
    ensures BitOr(2 * a, i) == 2 * BitOr(a, i / 2) + i % 2
  {
    assert (2 * a) / 2 == a && (2 * a) % 2 == 0;
  }

  /** Or-ing a value shifted left by k with a k-bit value is their sum. */
  lemma {:induction false} OrDisjoint(y: nat, k: nat, i: nat)
    requires i < Pow2(k)
    ensures BitOr(y * Pow2(k), i) == y * Pow2(k) + i
  {
    if k == 0 {
      OrZero(y);
    } else {
      OrDisjoint(y, k - 1, i / 2);
      MulDouble(y, Pow2(k - 1));
      OrDouble(y * Pow2(k - 1), i);
    }
  }

  lemma {:induction false} OrZero(y: nat)
    ensures BitOr(y, 0) == y
  {
    if y > 0 {
      OrZero(y / 2);
    }
  }

  /** The low bit of a value is its parity. */
  lemma AndOne(a: nat)
    ensures BitAnd(a, 1) == a % 2
  {
    if a > 0 {
      assert BitAnd(a / 2, 0) == 0;
    }
  }
}
