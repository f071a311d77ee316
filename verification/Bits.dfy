/**
 Unsigned arithmetic of the hash table: powers of two, the bitwise AND of two
 non-negative integers, and the two identities that let the table use a mask
 for "mod" and a shift plus a mask for "divide, rounding up".
 */
module Bits {

  function Pow2(k: nat): (p: nat)
    ensures p > 0
  {
    if k == 0 then 1 else 2 * Pow2(k - 1)
  }

  /** Bitwise AND, bit by bit from the least significant end. */
  function And(a: nat, b: nat): nat
  {
    if a == 0 || b == 0 then 0
    else (if a % 2 == 1 && b % 2 == 1 then 1 else 0) + 2 * And(a / 2, b / 2)
  }

  /** `a >> k` on an unsigned value. */
  function Shr(a: nat, k: nat): nat
  {
    if k == 0 then a else Shr(a / 2, k - 1)
  }

  /** Masking with one less than a power of two is reduction modulo it. */
  lemma {:induction false} MaskIsMod(a: nat, k: nat)
    ensures And(a, Pow2(k) - 1) == a % Pow2(k)
  {
    if a != 0 && k != 0 {
      var h := Pow2(k - 1);
      MaskIsMod(a / 2, k - 1);
      assert Pow2(k) - 1 == 2 * (h - 1) + 1;
      assert (Pow2(k) - 1) / 2 == h - 1;
      ModSplit(a, h);
      if h - 1 == 0 {
        assert And(a / 2, 0) == 0;
      }
    }
  }

  /** Splitting off the lowest bit commutes with reduction modulo an even number. */
  lemma ModSplit(a: nat, h: nat)
    requires h > 0
    ensures a % (2 * h) == 2 * ((a / 2) % h) + a % 2
    ensures a / (2 * h) == (a / 2) / h
  {
    var q, r := (a / 2) / h, (a / 2) % h;
    assert a / 2 == q * h + r;
    assert a == (2 * h) * q + (2 * r + a % 2) by {
      assert 2 * (q * h) == (2 * h) * q;
    }
    DivModUnique(a, 2 * h, q, 2 * r + a % 2);
  }

  lemma MulAtLeast(m: nat, d: nat)
    requires d > 0
    ensures m * d >= m
  {
  }

  lemma DivModUnique(a: nat, m: nat, q: nat, r: nat)
    requires m > 0 && r < m && a == m * q + r
    ensures a / m == q && a % m == r
  {
    var q', r' := a / m, a % m;
    var d := q - q';
    assert m * d == m * q - m * q';
    if d > 0 {
      MulAtLeast(m, d);
      assert false;
    } else if d < 0 {
      assert m * -d == -(m * d);
      MulAtLeast(m, -d);
      assert false;
    }
  }

  lemma {:induction false} ShrIsDiv(a: nat, k: nat)
    ensures Shr(a, k) == a / Pow2(k)
  {
    if k != 0 {
      ShrIsDiv(a / 2, k - 1);
      ModSplit(a, Pow2(k - 1));
    }
  }

  /** How many groups of `b` it takes to hold `n` items. */
  function CeilDiv(n: nat, b: nat): (g: nat)
    requires b > 0
    ensures n > 0 <==> g > 0
  {
    if n == 0 then 0 else if n <= b then 1 else 1 + CeilDiv(n - b, b)
  }

  lemma {:induction false} CeilDivIs(n: nat, b: nat)
    requires b > 0
    ensures CeilDiv(n, b) == n / b + if n % b != 0 then 1 else 0
  {
    if n > b {
      CeilDivIs(n - b, b);
      DivStep(n, b);
    } else if n == b {
      DivModUnique(n, b, 1, 0);
    }
  }

  lemma DivStep(n: nat, b: nat)
    requires n >= b > 0
    ensures n / b == (n - b) / b + 1 && n % b == (n - b) % b
  {
    var q, r := (n - b) / b, (n - b) % b;
    assert n - b == b * q + r;
    assert b * (q + 1) == b * q + b;
    DivModUnique(n, b, q + 1, r);
  }

  /**
   The ideal chain length for `n` items and 2^k buckets, by shift and mask: it is
   the rounded-up quotient, so it is not zero while the table holds an item.
   */
  function IdealLength(n: nat, k: nat): (r: nat)
    ensures r == CeilDiv(n, Pow2(k))
  {
    ShrIsDiv(n, k);
    MaskIsMod(n, k);
    CeilDivIs(n, Pow2(k));
    Shr(n, k) + if And(n, Pow2(k) - 1) != 0 then 1 else 0
  }

  /** A hash value's bucket after doubling is its old bucket, or that plus the old size. */
  lemma DoublingSplits(h: nat, n: nat)
    requires n > 0
    ensures h % (2 * n) == h % n || h % (2 * n) == h % n + n
    ensures (h % (2 * n)) % n == h % n
  {
    DoubleRemainder(h, n, h / n, h % n);
  }

  lemma DoubleRemainder(h: nat, n: nat, q: nat, r: nat)
    requires n > 0 && r < n && h == n * q + r
    ensures h % (2 * n) == if q % 2 == 0 then r else n + r
    ensures h % n == r && (n + r) % n == r && r % n == r
  {
    DivModUnique(h, n, q, r);
    DivModUnique(n + r, n, 1, r);
    DivModUnique(r, n, 0, r);
    var p := q / 2;
    if q % 2 == 0 {
      assert n * (2 * p) == (2 * n) * p;
      DivModUnique(h, 2 * n, p, r);
    } else {
      assert n * (2 * p + 1) == (2 * n) * p + n;
      DivModUnique(h, 2 * n, p, n + r);
    }
  }
}
