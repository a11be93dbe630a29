/**
 * The bitwise operators of the source's language on unbounded integers.
 *
 * Operands are cut to 32 bits, and every result but that of `>>>` is read as a signed number:
 * `ToUint32` and `ToInt32` are the two conversions.  The operators themselves are defined bit by
 * bit, and `High` and `Low` cut a number at one bit.
 *
 * The lemmas say what masking, joining and shifting mean in terms of powers of two.  They take the
 * masks and products as parameters with an equation each, so that the recursive definitions are
 * only ever unfolded for variables.
 */
module Bits {

  function Pow2(n: nat): (p: nat)
    ensures p > 0
  {
    if n == 0 then 1 else 2 * Pow2(n - 1)
  }

  /** The bits of x from position n upwards, and those below it. */
  function High(x: nat, n: nat): (q: nat)
    ensures q <= x
  {
    if n == 0 then x else High(x / 2, n - 1)
  }

  function Low(x: nat, n: nat): (r: nat)
    ensures r <= x && r < Pow2(n)
  {
    if n == 0 then 0 else 2 * Low(x / 2, n - 1) + x % 2
  }

  /** Bit by bit on unbounded numbers. */
  function BitAnd(a: nat, b: nat): (r: nat)
    ensures r <= a && r <= b
  {
    if a == 0 || b == 0 then 0
    else 2 * BitAnd(a / 2, b / 2) + if a % 2 == 1 && b % 2 == 1 then 1 else 0
  }

  function BitOr(a: nat, b: nat): (r: nat)
    ensures a <= r && b <= r <= a + b
    decreases a + b
  {
    if a == 0 && b == 0 then 0
    else 2 * BitOr(a / 2, b / 2) + if a % 2 == 1 || b % 2 == 1 then 1 else 0
  }

  function ToUint32(x: int): nat { x % 0x1_0000_0000 }

  function ToInt32(x: int): int { (x + 0x8000_0000) % 0x1_0000_0000 - 0x8000_0000 }

  function And(x: int, y: int): int { ToInt32(BitAnd(ToUint32(x), ToUint32(y))) }

  function Or(x: int, y: int): int { ToInt32(BitOr(ToUint32(x), ToUint32(y))) }

  function Not(x: int): int { -1 - ToInt32(x) }

  function Shl(x: int, n: nat): int { ToInt32(x * Pow2(n % 32)) }

  function UShr(x: int, n: nat): nat { High(ToUint32(x), n % 32) }

  // ---- Powers of two --------------------------------------------------------------------------

  lemma Associate(x: int, y: int, z: int)
    ensures x * (y * z) == (x * y) * z
  {
  }

  lemma {:induction false} Pow2Add(m: nat, n: nat)
    ensures Pow2(m + n) == Pow2(m) * Pow2(n)
  {
    if m > 0 {
      Pow2Add(m - 1, n);
      assert m - 1 + n == m + n - 1;
      assert Pow2(m) == 2 * Pow2(m - 1) && Pow2(m + n) == 2 * Pow2(m + n - 1);
      hide Pow2;
      Associate(2, Pow2(m - 1), Pow2(n));
    }
  }

  lemma Pow2Values()
    ensures Pow2(1) == 2 && Pow2(4) == 16 && Pow2(7) == 0x80 && Pow2(8) == 0x100
    ensures Pow2(15) == 0x8000 && Pow2(16) == 0x10000 && Pow2(32) == 0x1_0000_0000
  {
    assert Pow2(4) == 16;
    Pow2Add(4, 4);
    assert Pow2(8) == 2 * Pow2(7);
    Pow2Add(8, 8);
    assert Pow2(16) == 2 * Pow2(15);
    Pow2Add(16, 16);
  }

  lemma {:induction false} Pow2Grows(m: nat, n: nat)
    requires m <= n
    ensures Pow2(m) <= Pow2(n)
  {
    if m < n { Pow2Grows(m, n - 1); }
  }

  lemma Pow2Below32(k: nat)
    requires k <= 31
    ensures Pow2(k) <= 0x8000_0000
  {
    Pow2Grows(k, 31);
    Pow2Values();
    Pow2Add(15, 16);
  }

  // ---- Division by a power of two -------------------------------------------------------------

  lemma HalfStep(x: nat, h: nat, p: nat, l: nat)
    requires x / 2 == h * p + l
    ensures x == h * (2 * p) + (2 * l + x % 2)
  {
    Associate(h, 2, p);
    Associate(2, h, p);
  }

  lemma {:induction false} HighLow(x: nat, n: nat)
    ensures x == High(x, n) * Pow2(n) + Low(x, n)
  {
    if n > 0 {
      HighLow(x / 2, n - 1);
      HalfStep(x, High(x / 2, n - 1), Pow2(n - 1), Low(x / 2, n - 1));
    }
  }

  lemma MulOrder(x: int, y: int, d: nat)
    requires x <= y
    ensures x * d <= y * d
  {
  }

  /** A quotient and a remainder determine each other. */
  lemma Unique(q: int, r: int, p: int, s: int, d: nat)
    requires q * d + r == p * d + s && 0 <= r < d && 0 <= s < d
    ensures q == p && r == s
  {
    assert (q - p) * d == q * d - p * d;
    if q > p { MulOrder(1, q - p, d); } else if q < p { MulOrder(q - p, -1, d); }
  }

  lemma DivUnique(x: int, d: nat, q: int, r: int)
    requires d > 0 && x == q * d + r && 0 <= r < d
    ensures x / d == q && x % d == r
  {
    Unique(x / d, x % d, q, r, d);
  }

  lemma HighUnique(x: nat, n: nat, q: nat, r: nat)
    requires x == q * Pow2(n) + r && r < Pow2(n)
    ensures High(x, n) == q && Low(x, n) == r
  {
    HighLow(x, n);
    Unique(High(x, n), Low(x, n), q, r, Pow2(n));
  }

  lemma HighLowAreDivMod(x: nat, n: nat)
    ensures High(x, n) == x / Pow2(n) && Low(x, n) == x % Pow2(n)
  {
    HighLow(x, n);
    DivUnique(x, Pow2(n), High(x, n), Low(x, n));
  }

  lemma {:induction false} HighHigh(x: nat, m: nat, n: nat)
    ensures High(High(x, m), n) == High(x, m + n)
  {
    if m > 0 {
      HighHigh(x / 2, m - 1, n);
      assert m - 1 + n == m + n - 1;
    }
  }

  // ---- What masking means ---------------------------------------------------------------------

  lemma OddStep(x: nat, m: nat, odd: nat)
    requires odd == 2 * m + 1
    ensures BitAnd(x, odd) == 2 * BitAnd(x / 2, m) + x % 2
    ensures BitOr(x, odd) == 2 * BitOr(x / 2, m) + 1
  {
    assert odd / 2 == m && odd % 2 == 1;
  }

  lemma EvenStep(x: nat, m: nat, even: nat)
    requires even == 2 * m
    ensures BitAnd(x, even) == 2 * BitAnd(x / 2, m)
    ensures BitOr(x, even) == 2 * BitOr(x / 2, m) + x % 2
  {
    assert even / 2 == m && even % 2 == 0;
  }

  lemma {:induction false} AndOnes(x: nat, k: nat, ones: nat)
    requires ones == Pow2(k) - 1
    ensures BitAnd(x, ones) == Low(x, k)
  {
    if k > 0 {
      AndOnes(x / 2, k - 1, ones / 2);
      OddStep(x, ones / 2, ones);
    }
  }

  /** A single bit. */
  lemma {:induction false} AndBit(x: nat, k: nat, bit: nat)
    requires bit == Pow2(k)
    ensures BitAnd(x, bit) == if High(x, k) % 2 == 1 then bit else 0
  {
    if k > 0 {
      AndBit(x / 2, k - 1, bit / 2);
      EvenStep(x, bit / 2, bit);
    } else {
      assert BitAnd(x / 2, 0) == 0;
    }
  }

  lemma {:induction false} OrZero(x: nat)
    ensures BitOr(x, 0) == x && BitOr(0, x) == x
  {
    if x > 0 { OrZero(x / 2); }
  }

  /** Ones from position k up to position w. */
  lemma {:induction false} AndHighOnes(x: nat, k: nat, w: nat, ones: nat)
    requires k <= w && ones == Pow2(w) - Pow2(k)
    ensures BitAnd(x, ones) == Low(x, w) - Low(x, k)
  {
    if k == 0 {
      AndOnes(x, w, ones);
    } else {
      AndHighOnes(x / 2, k - 1, w - 1, ones / 2);
      EvenStep(x, ones / 2, ones);
    }
  }

  lemma {:induction false} OrOnes(x: nat, k: nat, ones: nat)
    requires ones == Pow2(k) - 1
    ensures BitOr(x, ones) == x - Low(x, k) + ones
  {
    if k == 0 {
      OrZero(x);
    } else {
      OrOnes(x / 2, k - 1, ones / 2);
      OddStep(x, ones / 2, ones);
    }
  }

  /** Joining two runs of bits that do not overlap. */
  lemma {:induction false} OrDisjoint(lo: nat, hi: nat, k: nat, high: nat)
    requires lo < Pow2(k) && high == hi * Pow2(k)
    ensures BitOr(lo, high) == high + lo
  {
    if k == 0 {
      OrZero(hi);
    } else {
      assert high == 2 * (hi * Pow2(k - 1));
      OrDisjoint(lo / 2, hi, k - 1, high / 2);
      EvenStep(lo, high / 2, high);
    }
  }

  lemma {:induction false} OrSwaps(a: nat, b: nat)
    ensures BitOr(a, b) == BitOr(b, a)
    decreases a + b
  {
    if a > 0 || b > 0 { OrSwaps(a / 2, b / 2); }
  }

  lemma {:induction false} OrBound(a: nat, b: nat, w: nat, p: nat)
    requires p == Pow2(w) && a < p && b < p
    ensures BitOr(a, b) < p
  {
    if w > 0 { OrBound(a / 2, b / 2, w - 1, p / 2); }
  }

  // ---- The operators on small numbers ---------------------------------------------------------

  lemma Small(x: nat)
    requires x < 0x8000_0000
    ensures ToUint32(x) == x && ToInt32(x) == x
  {
  }

  lemma SameBits(x: int, m: int)
    requires m == ToInt32(x)
    ensures ToUint32(m) == ToUint32(x)
  {
  }

  lemma AndOnesInt(x: int, k: nat, ones: nat)
    requires k <= 31 && ones == Pow2(k) - 1
    ensures And(x, ones) == Low(ToUint32(x), k)
  {
    Pow2Below32(k);
    AndOnes(ToUint32(x), k, ones);
    Small(ones);
    Small(Low(ToUint32(x), k));
  }

  lemma ShlSmall(x: nat, k: nat, product: nat)
    requires k <= 31 && product == x * Pow2(k) && product < 0x8000_0000
    ensures Shl(x, k) == product
  {
    Small(product);
  }

  /** The bits of a shifted number, when none is lost. */
  lemma ShlBits(x: nat, k: nat, product: nat, shifted: int)
    requires k <= 31 && product == x * Pow2(k) && product < 0x1_0000_0000 && shifted == Shl(x, k)
    ensures ToUint32(shifted) == product
  {
    SameBits(product, shifted);
  }

  lemma OrDisjointInt(lo: nat, hi: nat, k: nat, high: nat)
    requires lo < Pow2(k) && high == hi * Pow2(k) && high + lo < 0x8000_0000
    ensures Or(lo, high) == high + lo
  {
    OrDisjoint(lo, hi, k, high);
    Small(lo);
    Small(high);
    Small(high + lo);
  }
}
