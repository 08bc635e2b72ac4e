/** Bitwise operators on 32-bit words, as arithmetic on naturals. */
module Bits {

  const ALL_ONES := 0xFFFF_FFFF

  predicate Bit(v: nat, k: nat)
    decreases k
  {
    if k == 0 then v % 2 == 1 else Bit(v / 2, k - 1)
  }

  function Pow2(k: nat): (p: nat)
    ensures p > 0
  {
    if k == 0 then 1 else 2 * Pow2(k - 1)
  }

  function And(a: nat, b: nat): nat
    decreases a
  {
    if a == 0 || b == 0 then 0
    else (if a % 2 == 1 && b % 2 == 1 then 1 else 0) + 2 * And(a / 2, b / 2)
  }

  function Or(a: nat, b: nat): nat
    decreases a
  {
    if a == 0 then b else if b == 0 then a
    else (if a % 2 == 1 || b % 2 == 1 then 1 else 0) + 2 * Or(a / 2, b / 2)
  }

  /** `!v` on 32 bits. */
  function Not32(v: nat): nat
    requires v <= ALL_ONES
  {
    ALL_ONES - v
  }

  /** `v << 1` on 32 bits: the top bit falls off. */
  function Shl1(v: nat): nat {
    2 * v % 0x1_0000_0000
  }

  lemma {:induction false} Pow2Of32()
    ensures Pow2(32) == 0x1_0000_0000
  {
    assert Pow2(8) == 0x100;
    assert Pow2(16) == 0x1_0000;
    assert Pow2(24) == 0x100_0000;
  }

  lemma {:induction false} Pow2Grows(j: nat, k: nat)
    requires j <= k
    ensures Pow2(j) <= Pow2(k)
    decreases k
  {
    if j < k {
      Pow2Grows(j, k - 1);
    }
  }

  lemma {:induction false} BitOfZero(k: nat)
    ensures !Bit(0, k)
    decreases k
  {
    if k > 0 {
      BitOfZero(k - 1);
    }
  }

  lemma {:induction false} BitOfPow2(j: nat, k: nat)
    ensures Bit(Pow2(j), k) <==> j == k
    decreases j
  {
    if j > 0 && k > 0 {
      BitOfPow2(j - 1, k - 1);
    } else if k > 0 {
      BitOfZero(k - 1);
    }
  }

  lemma {:induction false} BitOfAnd(a: nat, b: nat, k: nat)
    ensures Bit(And(a, b), k) <==> Bit(a, k) && Bit(b, k)
    decreases k
  {
    if a == 0 || b == 0 {
      BitOfZero(k);
    } else if k > 0 {
      BitOfAnd(a / 2, b / 2, k - 1);
    }
  }

  lemma {:induction false} BitOfOr(a: nat, b: nat, k: nat)
    ensures Bit(Or(a, b), k) <==> Bit(a, k) || Bit(b, k)
    decreases k
  {
    if a == 0 || b == 0 {
      BitOfZero(k);
    } else if k > 0 {
      BitOfOr(a / 2, b / 2, k - 1);
    }
  }

  lemma {:induction false} HalfOfComplement(p: nat, v: nat)
    requires v < 2 * p
    ensures v / 2 < p && (2 * p - 1 - v) / 2 == p - 1 - v / 2 && ((2 * p - 1 - v) % 2 == 1 <==> v % 2 != 1)
  {
  }

  lemma {:induction false} BitOfComplement(n: nat, v: nat, k: nat)
    requires v < Pow2(n) && k < n
    ensures Bit(Pow2(n) - 1 - v, k) <==> !Bit(v, k)
    decreases n
  {
    HalfOfComplement(Pow2(n - 1), v);
    if k > 0 {
      BitOfComplement(n - 1, v / 2, k - 1);
    }
  }

  lemma {:induction false} BitOfNot(v: nat, k: nat)
    requires v <= ALL_ONES && k < 32
    ensures Bit(Not32(v), k) <==> !Bit(v, k)
  {
    Pow2Of32();
    BitOfComplement(32, v, k);
  }

  lemma {:induction false} NoBitAbove(n: nat, v: nat, k: nat)
    requires v < Pow2(n) && k >= n
    ensures !Bit(v, k)
    decreases n
  {
    if n == 0 {
      BitOfZero(k);
    } else {
      NoBitAbove(n - 1, v / 2, k - 1);
    }
  }

  lemma {:induction false} AndBound(n: nat, a: nat, b: nat)
    requires a < Pow2(n)
    ensures And(a, b) < Pow2(n)
    decreases n
  {
    if n > 0 && a != 0 && b != 0 {
      AndBound(n - 1, a / 2, b / 2);
    }
  }

  lemma {:induction false} OrBound(n: nat, a: nat, b: nat)
    requires a < Pow2(n) && b < Pow2(n)
    ensures Or(a, b) < Pow2(n)
    decreases n
  {
    if n > 0 && a != 0 && b != 0 {
      OrBound(n - 1, a / 2, b / 2);
    }
  }

  /** A one-bit mask tests its bit. */
  lemma {:induction false} MaskTests(v: nat, k: nat)
    ensures And(v, Pow2(k)) != 0 <==> Bit(v, k)
    decreases k
  {
    if k == 0 {
      if v != 0 {
        assert And(v / 2, 0) == 0;
      }
    } else if v == 0 {
      BitOfZero(k);
    } else {
      MaskTests(v / 2, k - 1);
    }
  }

  lemma {:induction false} OrAbove(v: nat, k: nat)
    requires v < Pow2(k)
    ensures Or(v, Pow2(k)) == v + Pow2(k)
    decreases k
  {
    if k > 0 && v != 0 {
      OrAbove(v / 2, k - 1);
    }
  }

  /** A one-bit mask moves up one bit, and out of the word after bit 31. */
  lemma {:induction false} MaskShifts(k: nat)
    requires k < 32
    ensures Shl1(Pow2(k)) == if k < 31 then Pow2(k + 1) else 0
    ensures Pow2(k) <= ALL_ONES
  {
    Pow2Of32();
    if k < 31 {
      Pow2Grows(k + 1, 31);
    }
  }

  /** The low `n` bits of a value, as the source's per-bit shifts see it. */
  lemma {:induction false} HalfMod(v: nat, n: nat)
    requires n > 0
    ensures v % Pow2(n) == v % 2 + 2 * (v / 2 % Pow2(n - 1))
  {
    var p, h := Pow2(n - 1), v / 2;
    var q, r := h / p, h % p;
    assert h == q * p + r;
    assert v == q * (2 * p) + (2 * r + v % 2);
    assert 2 * r + v % 2 < 2 * p;
    ModOf(v, 2 * p, q, 2 * r + v % 2);
  }

  lemma {:induction false} AtLeastOnce(d: nat, m: nat)
    requires d > 0
    ensures d * m >= m
  {
    assert d * m == (d - 1) * m + m;
    assert (d - 1) * m >= 0;
  }

  /** Quotient and remainder are unique. */
  lemma {:induction false} Euclid(m: nat, q: nat, r: nat, s: nat, t: nat)
    requires r < m && t < m && q * m + r == s * m + t
    ensures q == s && r == t
  {
    if q > s {
      assert (q - s) * m == t - r;
      AtLeastOnce(q - s, m);
    } else if s > q {
      assert (s - q) * m == r - t;
      AtLeastOnce(s - q, m);
    }
  }

  lemma {:induction false} ModOf(v: nat, m: nat, q: nat, r: nat)
    requires r < m && v == q * m + r
    ensures v % m == r && v / m == q
  {
    var s, t := v / m, v % m;
    assert v == s * m + t;
    Euclid(m, q, r, s, t);
  }
}
