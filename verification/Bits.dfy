/** C's unsigned shift and mask operators, on naturals.  Every operator carries the
    bit-by-bit meaning the C standard gives it; the arithmetic readings that other modules use
    are lemmas at the end. */
module Bits {

  function Pow2(n: nat): (r: nat)
    ensures r > 0
  {
    if n == 0 then 1 else 2 * Pow2(n - 1)
  }

  /** Bit i of word w. */
  predicate Bit(w: nat, i: nat) {
    if i == 0 then w % 2 == 1 else Bit(w / 2, i - 1)
  }

  /** `a & b` */
  function And(a: nat, b: nat): (r: nat)
    ensures forall i: nat {:trigger Bit(r, i)} :: Bit(r, i) <==> Bit(a, i) && Bit(b, i)
  {
    if a == 0 || b == 0 then
      ZeroBits();
      0
    else
      var r := 2 * And(a / 2, b / 2) + (if a % 2 == 1 && b % 2 == 1 then 1 else 0);
      assert r / 2 == And(a / 2, b / 2);
      r
  }

  /** `a | b` */
  function Or(a: nat, b: nat): (r: nat)
    ensures forall i: nat {:trigger Bit(r, i)} :: Bit(r, i) <==> Bit(a, i) || Bit(b, i)
    decreases a + b
  {
    if a == 0 then
      ZeroBits();
      b
    else if b == 0 then
      ZeroBits();
      a
    else
      var r := 2 * Or(a / 2, b / 2) + (if a % 2 == 1 || b % 2 == 1 then 1 else 0);
      assert r / 2 == Or(a / 2, b / 2);
      r
  }

  /** `a << k` before truncation to the word. */
  function Shl(a: nat, k: nat): (r: nat)
    ensures forall i: nat {:trigger Bit(r, i)} :: Bit(r, i) <==> i >= k && Bit(a, i - k)
    decreases a + k
  {
    if k == 0 then a else
      var r := 2 * Shl(a, k - 1);
      assert r / 2 == Shl(a, k - 1);
      r
  }

  /** `a >> k` on an unsigned word. */
  function Shr(a: nat, k: nat): (r: nat)
    ensures forall i: nat {:trigger Bit(r, i)} :: Bit(r, i) <==> Bit(a, i + k)
    decreases a + k
  {
    if k == 0 then a else Shr(a / 2, k - 1)
  }

  /** Truncation to n bits: what an n-bit register keeps of a. */
  function Wrap(a: nat, n: nat): (r: nat)
    ensures forall i: nat {:trigger Bit(r, i)} :: Bit(r, i) <==> i < n && Bit(a, i)
    decreases a + n
  {
    if n == 0 then
      ZeroBits();
      0
    else
      var r := 2 * Wrap(a / 2, n - 1) + a % 2;
      assert r / 2 == Wrap(a / 2, n - 1);
      r
  }

  /** `~a` in an n-bit register. */
  function Not(a: nat, n: nat): (r: nat)
    ensures forall i: nat {:trigger Bit(r, i)} :: Bit(r, i) <==> i < n && !Bit(a, i)
    decreases a + n
  {
    if n == 0 then
      ZeroBits();
      0
    else
      var r := 2 * Not(a / 2, n - 1) + (1 - a % 2);
      assert r / 2 == Not(a / 2, n - 1);
      r
  }

  /** `(1 << n) - 1` */
  function Ones(n: nat): (r: nat)
    ensures forall i: nat {:trigger Bit(r, i)} :: Bit(r, i) <==> i < n
    ensures r == Pow2(n) - 1
  {
    if n == 0 then
      ZeroBits();
      0
    else
      var r := 2 * Ones(n - 1) + 1;
      assert r / 2 == Ones(n - 1);
      r
  }

  lemma ZeroBit(i: nat)
    ensures !Bit(0, i)
  {
  }

  lemma ZeroBits()
    ensures forall i: nat :: !Bit(0, i)
  {
    forall i: nat
      ensures !Bit(0, i)
    {
      ZeroBit(i);
    }
  }

  /** Words with the same bits are the same word. */
  lemma {:induction false} SameBits(a: nat, b: nat)
    requires forall i: nat :: Bit(a, i) == Bit(b, i)
    ensures a == b
    decreases a + b
  {
    assert Bit(a, 0) == Bit(b, 0);
    if a != 0 || b != 0 {
      forall i: nat
        ensures Bit(a / 2, i) == Bit(b / 2, i)
      {
        assert Bit(a, i + 1) == Bit(b, i + 1);
      }
      SameBits(a / 2, b / 2);
    }
  }

  /** The bits of a from n on are clear. */
  ghost predicate HighClear(a: nat, n: nat) {
    forall i: nat :: i >= n ==> !Bit(a, i)
  }

  /** A word fits in n bits exactly when its bits from n on are clear. */
  lemma {:induction false} FitsBits(a: nat, n: nat)
    ensures a < Pow2(n) <==> HighClear(a, n)
    decreases n
  {
    if n == 0 {
      ZeroBits();
      if HighClear(a, 0) {
        SameBits(a, 0);
      }
    } else {
      FitsBits(a / 2, n - 1);
      if HighClear(a, n) {
        forall i: nat | i >= n - 1
          ensures !Bit(a / 2, i)
        {
          assert !Bit(a, i + 1);
        }
      }
      if HighClear(a / 2, n - 1) {
        forall i: nat | i >= n
          ensures !Bit(a, i)
        {
          assert !Bit(a / 2, i - 1);
        }
      }
    }
  }

  lemma WrapFits(a: nat, n: nat)
    ensures Wrap(a, n) == a <==> a < Pow2(n)
  {
    FitsBits(a, n);
    FitsBits(Wrap(a, n), n);
    if a < Pow2(n) {
      SameBits(Wrap(a, n), a);
    }
  }

  lemma {:induction false} BitOfOne(i: nat)
    ensures Bit(1, i) <==> i == 0
  {
    if i > 0 {
      ZeroBit(i - 1);
    }
  }

  lemma {:induction false} Pow2Monotone(m: nat, n: nat)
    requires m <= n
    ensures Pow2(m) <= Pow2(n)
    decreases n - m
  {
    if m < n {
      Pow2Monotone(m + 1, n);
    }
  }

  lemma Pow2Small()
    ensures Pow2(0) == 1 && Pow2(1) == 2 && Pow2(2) == 4 && Pow2(3) == 8 && Pow2(4) == 16 && Pow2(5) == 32
    ensures Pow2(6) == 64 && Pow2(8) == 256 && Pow2(12) == 4096 && Pow2(14) == 0x4000
  {
  }

  lemma Pow2Large()
    ensures Pow2(20) == 0x10_0000 && Pow2(24) == 0x100_0000 && Pow2(28) == 0x1000_0000
    ensures Pow2(48) == 0x1_0000_0000_0000 && Pow2(56) == 0x100_0000_0000_0000
    ensures Pow2(60) == 0x1000_0000_0000_0000
  {
    hide Pow2;
    Pow2Small();
    Pow2Add(12, 8);
    Pow2Add(12, 12);
    Pow2Add(24, 4);
    Pow2Add(24, 24);
    Pow2Add(28, 28);
    Pow2Add(56, 4);
  }

  lemma {:induction false} Pow2Add(m: nat, n: nat)
    ensures Pow2(m + n) == Pow2(m) * Pow2(n)
    decreases m
  {
    if m > 0 {
      Pow2Add(m - 1, n);
      assert Pow2(m + n) == 2 * Pow2(m - 1 + n);
    }
  }

  lemma {:induction false} ShlIsMul(a: nat, k: nat)
    ensures Shl(a, k) == a * Pow2(k)
  {
    if k > 0 {
      ShlIsMul(a, k - 1);
    }
  }

  /** `(a << k) | b` is an addition when b stays below the shift. */
  lemma {:induction false} OrIsAdd(a: nat, k: nat, b: nat)
    requires b < Pow2(k)
    ensures Or(Shl(a, k), b) == Shl(a, k) + b
    decreases k
  {
    if k == 0 {
    } else {
      OrIsAdd(a, k - 1, b / 2);
      OrEven(Shl(a, k - 1), b);
    }
  }

  lemma OrEven(x: nat, b: nat)
    ensures Or(2 * x, b) == 2 * Or(x, b / 2) + b % 2
  {
    if x == 0 || b == 0 {
    } else {
      assert (2 * x) / 2 == x;
    }
  }

  /** Quotient and remainder are determined by the division identity. */
  lemma DivUnique(a: int, p: nat, q: int, r: nat)
    requires p > 0 && r < p && a == q * p + r
    ensures a / p == q && a % p == r
  {
    EuclidUnique(p, q, r, a / p, a % p);
  }

  lemma EuclidUnique(p: nat, q: int, r: nat, q': int, r': nat)
    requires r < p && r' < p && q * p + r == q' * p + r'
    ensures q == q' && r == r'
  {
    if q < q' {
      MulGap(q, q', p);
    } else if q' < q {
      MulGap(q', q, p);
    }
  }

  lemma MulGap(x: int, y: int, p: nat)
    requires x < y
    ensures x * p + p <= y * p
  {
    var gap: nat := y - x - 1;
    assert y == x + 1 + gap;
    Distribute(x, 1 + gap, p);
    Distribute(1, gap, p);
  }

  lemma Distribute(x: int, y: nat, p: nat)
    ensures (x + y) * p == x * p + y * p && y * p >= 0
  {
  }
}
