/**
 * 64-bit numbers held in four limbs of sixteen bits, least significant limb first.
 *
 * `Val` is the number that a list of limbs stands for.  The three operations of the generator are
 * methods with the loops of the source; each is proved to compute the arithmetic operation on the
 * numbers: multiplication and addition modulo 2^64, and division by any power of two.
 *
 * One limb step is always a lemma of its own.
 */
module Limbs {
  import opened Bits

  const BASE: nat := 0x10000
  const WORD: nat := 0x1_0000_0000_0000_0000

  /** Any list of limbs; the lists the arithmetic works on have four. */
  predicate AreLimbs(a: seq<nat>) { forall i :: 0 <= i < |a| ==> a[i] < BASE }

  predicate IsWord(a: seq<nat>) { |a| == 4 && AreLimbs(a) }

  function Val(a: seq<nat>): (v: nat)
  {
    if a == [] then 0 else a[0] + BASE * Val(a[1..])
  }

  function Power(n: nat): (p: nat)
    ensures p > 0
  {
    if n == 0 then 1 else BASE * Power(n - 1)
  }

  // ---- Values of limb lists -------------------------------------------------------------------

  lemma {:induction false} ValSet(a: seq<nat>, i: nat, x: nat)
    requires i < |a|
    ensures Val(a[i := x]) == Val(a) + (x - a[i]) * Power(i)
  {
    if i == 0 {
      assert a[0 := x][1..] == a[1..];
    } else {
      assert a[i := x][1..] == a[1..][i - 1 := x];
      ValSet(a[1..], i - 1, x);
      assert BASE * ((x - a[i]) * Power(i - 1)) == (x - a[i]) * Power(i);
    }
  }

  lemma {:induction false} ValSplit(a: seq<nat>, i: nat)
    requires i <= |a|
    ensures Val(a) == Val(a[..i]) + Power(i) * Val(a[i..])
  {
    if i == 0 {
      assert a[0..] == a;
    } else {
      assert a[..i][1..] == a[1..][..i - 1] && a[1..][i - 1..] == a[i..];
      ValSplit(a[1..], i - 1);
      assert BASE * (Power(i - 1) * Val(a[i..])) == Power(i) * Val(a[i..]);
    }
  }

  lemma ValPush(a: seq<nat>, i: nat)
    requires i < |a|
    ensures Val(a[..i + 1]) == Val(a[..i]) + Power(i) * a[i]
  {
    var b := a[..i + 1];
    ValSplit(b, i);
    assert b[..i] == a[..i] && b[i..] == [a[i]] && [a[i]][1..] == [];
    assert Val([a[i]]) == a[i] + BASE * Val([]);
  }

  lemma {:induction false} ValZero(a: seq<nat>)
    requires forall i :: 0 <= i < |a| ==> a[i] == 0
    ensures Val(a) == 0
  {
    if a != [] { ValZero(a[1..]); }
  }

  lemma {:induction false} ValBound(a: seq<nat>)
    requires AreLimbs(a)
    ensures Val(a) < Power(|a|)
  {
    if a != [] { ValBound(a[1..]); }
  }

  lemma {:induction false} PowerAdd(m: nat, n: nat)
    ensures Power(m + n) == Power(m) * Power(n)
  {
    if m > 0 {
      PowerAdd(m - 1, n);
      assert m - 1 + n == m + n - 1;
      assert Power(m) == BASE * Power(m - 1) && Power(m + n) == BASE * Power(m + n - 1);
      hide Power;
      Associate(BASE, Power(m - 1), Power(n));
    }
  }

  lemma PowerFour()
    ensures Power(4) == WORD
  {
    assert Power(2) == 0x1_0000_0000;
    PowerAdd(2, 2);
  }

  /** Two words with the same value are the same limbs. */
  lemma {:induction false} ValInjective(a: seq<nat>, b: seq<nat>)
    requires |a| == |b| && AreLimbs(a) && AreLimbs(b) && Val(a) == Val(b)
    ensures a == b
  {
    if a != [] {
      assert a == [a[0]] + a[1..] && b == [b[0]] + b[1..];
      ValInjective(a[1..], b[1..]);
    }
  }

  /** Cutting a list to four limbs keeps its value mod 2^64. */
  lemma Cut(r: seq<nat>)
    requires |r| >= 4 && AreLimbs(r)
    ensures IsWord(r[..4]) && Val(r[..4]) == Val(r) % WORD
  {
    var low, rest := r[..4], Val(r[4..]);
    ValSplit(r, 4);
    ValBound(low);
    PowerFour();
    DivUnique(Val(r), WORD, rest, Val(low));
  }

  // ---- Multiplication -------------------------------------------------------------------------

  /** The low half stays, the high half is carried; nothing is lost below 2^32. */
  method LowAndCarry(t: nat) returns (low: nat, carry: nat)
    requires t < 0x1_0000_0000
    ensures low < BASE && carry < BASE && t == low + BASE * carry
  {
    hide *;
    Halves(t, 0xffff, 16);
    low, carry := And(t, 0xffff), UShr(t, 16);
  }

  lemma Halves(t: nat, mask: nat, n: nat)
    requires t < 0x1_0000_0000 && mask == 0xffff && n == 16
    ensures 0 <= And(t, mask) < BASE && 0 <= UShr(t, n) < BASE && t == And(t, mask) + BASE * UShr(t, n)
  {
    Pow2Values();
    assert ToUint32(t) == t;
    AndOnesInt(t, n, mask);
    HighLow(t, n);
    assert UShr(t, n) == High(t, n) && And(t, mask) == Low(t, n);
    hide High, Low, And, UShr;
  }

  lemma MulStep(r: seq<nat>, m: nat, i: nat, j: nat, ai: nat, bj: nat, k: nat, lo: nat, hi: nat)
    requires m < |r| && m == i + j && lo + BASE * hi == ai * bj + r[m] + k
    ensures Val(r[m := lo]) + Power(m + 1) * hi == Val(r) + Power(m) * k + (Power(i) * ai) * (Power(j) * bj)
  {
    ValSet(r, m, lo);
    PowerAdd(i, j);
    Regroup(Power(i), ai, Power(j), bj);
    CarryOver(Power(m), ai * bj, r[m], k, lo, hi);
  }

  lemma Regroup(p: nat, x: nat, q: nat, y: nat)
    ensures (p * x) * (q * y) == (p * q) * (x * y)
  {
    var z := q * y;
    assert (p * x) * z == p * (x * z);
    assert x * z == q * (x * y);
    var w := x * y;
    assert p * (q * w) == (p * q) * w;
  }

  lemma CarryOver(p: nat, xy: nat, rm: nat, k: nat, lo: nat, hi: nat)
    requires lo + BASE * hi == xy + rm + k
    ensures (lo - rm) * p + (BASE * p) * hi == p * k + p * xy
  {
    assert (BASE * p) * hi == (BASE * hi) * p;
    assert (lo - rm) * p + (BASE * hi) * p == (lo - rm + BASE * hi) * p;
    assert (xy + k) * p == p * k + p * xy;
  }

  /** No intermediate value needs more than 32 bits. */
  lemma StepFits(x: nat, y: nat, r: nat, k: nat)
    requires x < BASE && y < BASE && r < BASE && k < BASE
    ensures x * y + r + k < 0x1_0000_0000
  {
    MulOrder(x, BASE - 1, y);
  }

  method Mul(a: seq<nat>, b: seq<nat>) returns (product: seq<nat>)
    requires IsWord(a) && IsWord(b)
    ensures IsWord(product) && Val(product) == (Val(a) * Val(b)) % WORD
  {
    var r: seq<nat> := [0, 0, 0, 0, 0, 0, 0, 0];
    ValZero(r);
    for j := 0 to 4
      invariant |r| == 8 && AreLimbs(r) && Val(r) == Val(a) * Val(b[..j])
      invariant forall m :: j + 4 <= m < 8 ==> r[m] == 0
    {
      r := MulRow(a, b[j], j, r);
      RowSum(a, b, j);
    }
    assert b[..4] == b;
    Cut(r);
    product := r[..4];
  }

  lemma RowSum(a: seq<nat>, b: seq<nat>, j: nat)
    requires j < |b|
    ensures Val(a) * Val(b[..j + 1]) == Val(a) * Val(b[..j]) + Val(a) * (Power(j) * b[j])
  {
    ValPush(b, j);
    hide Val, Power;
    Spread(Val(a), Val(b[..j]), Power(j) * b[j]);
  }

  lemma Spread(x: nat, y: nat, z: nat)
    ensures x * (y + z) == x * y + x * z
  {
  }

  method MulLimb(x: nat, y: nat, r: nat, k: nat) returns (lo: nat, hi: nat)
    requires x < BASE && y < BASE && r < BASE && k < BASE
    ensures lo < BASE && hi < BASE && lo + BASE * hi == x * y + r + k
  {
    StepFits(x, y, r, k);
    lo, hi := LowAndCarry(x * y + r + k);
  }

  /** The inner loop: adds one row of the product. */
  method MulRow(a: seq<nat>, d: nat, j: nat, r0: seq<nat>) returns (r: seq<nat>)
    requires IsWord(a) && d < BASE && j < 4 && |r0| == 8 && AreLimbs(r0)
    requires forall m :: j + 4 <= m < 8 ==> r0[m] == 0
    ensures |r| == 8 && AreLimbs(r) && Val(r) == Val(r0) + Val(a) * (Power(j) * d)
    ensures forall m :: j + 5 <= m < 8 ==> r[m] == 0
  {
    r := r0;
    var k: nat := 0;
    assert a[..0] == [] && a[..4] == a;
    RowStart(a, d, j, r0);
    hide Val, Power, RowDone;
    for i := 0 to 4
      invariant |r| == 8 && AreLimbs(r) && k < BASE
      invariant forall m :: j + 4 <= m < 8 ==> r[m] == 0
      invariant RowDone(a, d, i, j, r0, r, k)
    {
      var lo, hi := MulLimb(a[i], d, r[i + j], k);
      MulTurn(a, d, i, j, r0, r, k, lo, hi);
      r, k := r[i + j := lo], hi;
    }
    PutCarry(r, 4 + j, k);
    RowEnd(a, d, j, r0, r, k);
    r := r[j + 4 := k];
  }

  /** r, with the carry k, is r0 with the product of the first i limbs of a and of digit d added at j. */
  ghost predicate RowDone(a: seq<nat>, d: nat, i: nat, j: nat, r0: seq<nat>, r: seq<nat>, k: nat)
    requires i <= |a|
  {
    Val(r) + Power(i + j) * k == Val(r0) + Val(a[..i]) * (Power(j) * d)
  }

  lemma RowStart(a: seq<nat>, d: nat, j: nat, r0: seq<nat>)
    ensures RowDone(a, d, 0, j, r0, r0, 0)
  {
    assert a[..0] == [];
  }

  lemma RowEnd(a: seq<nat>, d: nat, j: nat, r0: seq<nat>, r: seq<nat>, k: nat)
    requires |a| == 4 && RowDone(a, d, 4, j, r0, r, k)
    ensures Val(r) + Power(4 + j) * k == Val(r0) + Val(a) * (Power(j) * d)
  {
    assert a[..4] == a;
  }

  lemma PutCarry(r: seq<nat>, m: nat, k: nat)
    requires m < |r| && r[m] == 0
    ensures Val(r[m := k]) == Val(r) + Power(m) * k
  {
    ValSet(r, m, k);
  }

  lemma MulTurn(a: seq<nat>, d: nat, i: nat, j: nat, r0: seq<nat>, r: seq<nat>, k: nat, lo: nat, hi: nat)
    requires i < |a| && i + j < |r| && lo + BASE * hi == a[i] * d + r[i + j] + k
    requires RowDone(a, d, i, j, r0, r, k)
    ensures RowDone(a, d, i + 1, j, r0, r[i + j := lo], hi)
  {
    hide Val, Power;
    assert i + 1 + j == i + j + 1;
    MulStep(r, i + j, i, j, a[i], d, k, lo, hi);
    ValPush(a, i);
    Distribute(Val(a[..i]), Power(i) * a[i], Power(j) * d);
  }

  lemma Distribute(x: nat, y: nat, z: nat)
    ensures (x + y) * z == x * z + y * z
  {
  }

  // ---- Addition -------------------------------------------------------------------------------

  method Add(a: seq<nat>, n: nat) returns (r: seq<nat>)
    requires IsWord(a) && a[0] + n < 0x1_0000_0000
    ensures IsWord(r) && Val(r) == (Val(a) + n) % WORD
  {
    r := [0, 0, 0, 0];
    var k: nat := n;
    ValZero(r);
    for i := 0 to 4
      invariant IsWord(r) && (if i == 0 then k == n else k < BASE)
      invariant forall m :: i <= m < 4 ==> r[m] == 0
      invariant Val(r) + Power(i) * k == Val(a[..i]) + n
    {
      var low, carry := LowAndCarry(a[i] + k);
      AddStep(r, i, a[i], k, low, carry);
      ValPush(a, i);
      r, k := r[i := low], carry;
    }
    assert a[..4] == a;
    PowerFour();
    ValBound(r);
    DivUnique(Val(a) + n, WORD, k, Val(r));
  }

  lemma AddStep(r: seq<nat>, i: nat, ai: nat, k: nat, lo: nat, hi: nat)
    requires i < |r| && r[i] == 0 && lo + BASE * hi == ai + k
    ensures Val(r[i := lo]) + Power(i + 1) * hi == Val(r) + Power(i) * k + Power(i) * ai
  {
    var p := Power(i);
    ValSet(r, i, lo);
    assert lo == ai + k - BASE * hi;
    assert lo * p == p * ai + p * k - (BASE * p) * hi;
  }

  // ---- Shifting right -------------------------------------------------------------------------

  /** The loop over whole limbs: `r` moves down one limb. */
  lemma LimbDown(r: seq<nat>)
    requires |r| == 5 && r[4] == 0
    ensures Val(r) == r[0] + BASE * Val(r[1..] + [0])
    ensures r[0] < BASE ==> Val(r[1..] + [0]) == High(Val(r), 16)
  {
    var up := r[1..] + [0];
    ValTop(up);
    assert up[..4] == r[1..];
    Pow2Values();
    if r[0] < BASE { HighUnique(Val(r), 16, Val(up), r[0]); }
  }

  /** One limb of the bit loop: s is split at bit n, and the bits carried from above are put on top. */
  method MoveLimb(s: nat, n: nat, k: nat, ghost above: nat) returns (moved: nat, carried: nat)
    requires s < BASE && n <= 16 && above < Pow2(n) && k == above * Pow2(16 - n)
    ensures moved < BASE && moved == High(s, n) + above * Pow2(16 - n)
    ensures carried == Low(s, n) * Pow2(16 - n)
  {
    assert BASE == 0x10000;
    hide *;
    SplitLimb(s, n, above);
    var down := UShr(s, n);
    ShiftedDown(s, n);
    OrDisjointInt(down, above, 16 - n, k);
    moved := Or(down, k);
    carried := CarriedBits(s, n);
  }

  lemma ShiftedDown(s: nat, n: nat)
    requires s < BASE && n <= 16
    ensures UShr(s, n) == High(s, n)
  {
    assert ToUint32(s) == s && n % 32 == n;
    hide High;
  }

  method CarriedBits(s: nat, n: nat) returns (carried: nat)
    requires s < BASE && n <= 16
    ensures carried == Low(s, n) * Pow2(16 - n)
  {
    var bit := OneBit(n);
    KeptLow(s, n, bit - 1);
    var kept: nat := And(s, bit - 1);
    SplitLimb(0, n, kept);
    ghost var product := kept * Pow2(16 - n);
    ShlSmall(kept, 16 - n, product);
    carried := Shl(kept, 16 - n);
  }

  method OneBit(n: nat) returns (bit: nat)
    requires n <= 16
    ensures bit == Pow2(n)
  {
    Pow2Grows(n, 16);
    Pow2Values();
    ShlSmall(1, n, Pow2(n));
    bit := Shl(1, n);
  }

  lemma KeptLow(s: nat, n: nat, mask: nat)
    requires s < BASE && n <= 16 && mask == Pow2(n) - 1
    ensures And(s, mask) == Low(s, n)
  {
    Small(s);
    AndOnesInt(s, n, mask);
  }

  lemma SplitLimb(s: nat, n: nat, above: nat)
    requires s < BASE && n <= 16 && above < Pow2(n)
    ensures 0 <= above * Pow2(16 - n) && High(s, n) < Pow2(16 - n) && High(s, n) + above * Pow2(16 - n) < BASE
  {
    Pow2Add(n, 16 - n);
    Pow2Values();
    HighLow(s, n);
    Fits(High(s, n), Low(s, n), above, Pow2(n), Pow2(16 - n));
  }

  lemma Fits(h: nat, low: nat, above: nat, p: nat, q: nat)
    requires h * p + low < BASE == p * q && above < p
    ensures h < q && 0 <= above * q && h + above * q < BASE
  {
    if h >= q {
      MulOrder(q, h, p);
      assert false;
    }
    MulOrder(0, above, q);
    MulOrder(above + 1, p, q);
    assert (above + 1) * q == above * q + q;
  }

  /** The value of the limbs from one upwards, before and after that limb is moved. */
  lemma BitStepValue(s: nat, n: nat, above: nat, high: nat, upper: nat)
    requires n <= 16 && upper == high * Pow2(n) + above
    ensures s + BASE * upper == (High(s, n) + above * Pow2(16 - n) + BASE * high) * Pow2(n) + Low(s, n)
  {
    Pow2Add(16 - n, n);
    Pow2Values();
    HighLow(s, n);
    ThreeProducts(High(s, n), above, high, Pow2(n), Pow2(16 - n));
  }

  lemma ThreeProducts(h: nat, above: nat, high: nat, p: nat, q: nat)
    requires q * p == BASE
    ensures (h + above * q + BASE * high) * p == h * p + above * BASE + BASE * (high * p)
  {
    var x, y := above * q, BASE * high;
    assert x * p == above * (q * p);
    assert y * p == BASE * (high * p);
    assert (h + x + y) * p == h * p + x * p + y * p;
  }

  method ShiftRight(a: seq<nat>, n0: nat) returns (q: seq<nat>)
    requires IsWord(a)
    ensures IsWord(q) && Val(q) == Val(a) / Pow2(n0)
  {
    var r, n, i := MoveLimbs(a, n0);
    q := MoveBits(r, n, i);
    HighHigh(Val(a), n0 - n, n);
    HighLowAreDivMod(Val(a), n0);
  }

  method OneDown(r0: seq<nat>) returns (r: seq<nat>)
    requires |r0| == 5 && r0[4] == 0
    ensures r == r0[1..] + [0]
  {
    r := r0;
    for j := 0 to 4
      invariant |r| == 5 && r[4] == 0
      invariant forall m :: 0 <= m < j ==> r[m] == r0[m + 1]
      invariant forall m :: j <= m < 5 ==> r[m] == r0[m]
    {
      r := r[j := r[j + 1]];
    }
  }

  method MoveLimbs(a: seq<nat>, n0: nat) returns (r: seq<nat>, n: nat, i: int)
    requires IsWord(a)
    ensures |r| == 5 && AreLimbs(r) && r[4] == 0 && n <= n0 && n <= 16 && i <= 4
    ensures forall m :: 0 <= m < 5 && m >= i ==> r[m] == 0
    ensures Val(r) == High(Val(a), n0 - n)
  {
    r, n, i := a + [0], n0, 4;
    ValTop(r);
    assert r[..4] == a;
    while n > 16
      invariant |r| == 5 && AreLimbs(r) && r[4] == 0 && n <= n0 && i <= 4
      invariant forall m :: 0 <= m < 5 && m >= i ==> r[m] == 0
      invariant Val(r) == High(Val(a), n0 - n)
    {
      LimbDown(r);
      HighHigh(Val(a), n0 - n, 16);
      r := OneDown(r);
      n, i := n - 16, i - 1;
    }
  }

  method MoveBits(r0: seq<nat>, n: nat, i0: int) returns (q: seq<nat>)
    requires |r0| == 5 && AreLimbs(r0) && r0[4] == 0 && n <= 16 && i0 <= 4
    requires forall m :: 0 <= m < 5 && m >= i0 ==> r0[m] == 0
    ensures IsWord(q) && Val(q) == High(Val(r0), n)
  {
    var r: seq<nat>, i: int, k: nat := r0, i0, 0;
    ghost var above: nat := 0;
    ghost var at: nat := if i0 < 0 then 0 else i0;
    ValZero(r0[at..]);
    hide Val, High, Low, Pow2;
    while i > 0
      invariant |r| == 5 && AreLimbs(r) && r[4] == 0 && i <= 4 && at == (if i < 0 then 0 else i)
      invariant forall m :: 0 <= m < i ==> r[m] == r0[m]
      invariant above < Pow2(n) && k == above * Pow2(16 - n)
      invariant Val(r0[at..]) == Val(r[at..]) * Pow2(n) + above
    {
      var moved, carried := MoveLimb(r[i - 1], n, k, above);
      BitTurn(r0, r, i - 1, n, above, moved);
      above := Low(r[i - 1], n);
      r, k := r[i - 1 := moved], carried;
      i := i - 1;
      at := i;
    }
    assert r0[0..] == r0 && r[0..] == r;
    HighUnique(Val(r0), n, Val(r), above);
    ValTop(r);
    q := r[..4];
  }

  lemma BitTurn(r0: seq<nat>, r: seq<nat>, i: nat, n: nat, above: nat, moved: nat)
    requires |r0| == |r| && i < |r| && r[i] == r0[i] && n <= 16
    requires Val(r0[i + 1..]) == Val(r[i + 1..]) * Pow2(n) + above
    requires moved == High(r[i], n) + above * Pow2(16 - n)
    ensures Val(r0[i..]) == Val(r[i := moved][i..]) * Pow2(n) + Low(r[i], n)
  {
    var from, to: seq<nat> := r0[i..], r[i := moved][i..];
    BitStepValue(r[i], n, above, Val(r[i + 1..]), Val(r0[i + 1..]));
    assert from[0] == r0[i] && from[1..] == r0[i + 1..];
    assert to[0] == moved && to[1..] == r[i + 1..];
  }

  lemma ValTop(r: seq<nat>)
    requires |r| == 5 && r[4] == 0
    ensures Val(r) == Val(r[..4])
  {
    ValSplit(r, 4);
    ValZero(r[4..]);
  }
}
