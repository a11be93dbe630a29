/**
 * The pseudo-random generator behind the zone colours: a 64-bit linear congruential generator.
 *
 * The generator works on limbs of 16 bits and is proved against arithmetic on numbers.  Colours are
 * made of three draws; what is taken from white in each channel is an `Ink`.
 */
module Prng {
  import opened Common
  import opened Bits
  import opened Limbs
  import IpText
  import NameHash

  const MULTIPLIER: nat := 0x5851_F42D_4C95_7F2D
  const RANGE: nat := 0x7FFF_FFFF

  // ---- The generator on numbers ---------------------------------------------------------------

  function Next(x: nat): (y: nat)
    ensures y < WORD
  {
    (MULTIPLIER * x + 1) % WORD
  }

  function Output(x: nat): nat { x / 0x2_0000_0000 }

  /** The state after n calls. */
  function State(x: nat, n: nat): nat { if n == 0 then x else Next(State(x, n - 1)) }

  /** The state that seeding with n leaves. */
  function Seeded(n: int): nat { ToUint32(n - 1) }

  function MultiplierPower(n: nat): nat { if n == 0 then 1 else MULTIPLIER * MultiplierPower(n - 1) }

  function Geometric(n: nat): nat { if n == 0 then 0 else MULTIPLIER * Geometric(n - 1) + 1 }

  /** Any number of calls at once: the state is an affine function of the first state. */
  lemma {:induction false} StateClosed(x: nat, n: nat)
    requires x < WORD
    ensures State(x, n) == (MultiplierPower(n) * x + Geometric(n)) % WORD
  {
    if n == 0 {
      DivUnique(x, WORD, 0, x);
    } else {
      StateClosed(x, n - 1);
      var y := MultiplierPower(n - 1) * x + Geometric(n - 1);
      StepOfMod(y);
      assert MULTIPLIER * (MultiplierPower(n - 1) * x) == MultiplierPower(n) * x;
    }
  }

  lemma StepOfMod(y: nat)
    ensures Next(y % WORD) == Next(y)
  {
    var q, r := y / WORD, y % WORD;
    var a, b := (MULTIPLIER * r + 1) / WORD, (MULTIPLIER * r + 1) % WORD;
    assert MULTIPLIER * y + 1 == (MULTIPLIER * q + a) * WORD + b;
    DivUnique(MULTIPLIER * y + 1, WORD, MULTIPLIER * q + a, b);
  }

  lemma OutputBound(x: nat)
    requires x < WORD
    ensures Output(x) < 0x8000_0000
  {
  }

  /** A number from l to u, from the rational d / RANGE. */
  function Scaled(d: nat, l: int, u: int): int { l + (d * (u - l + 1)) / RANGE }

  /** With the bounds in order the result is between them; otherwise it is outside. */
  lemma ScaledInRange(d: nat, l: int, u: int)
    requires d < RANGE
    ensures l <= u ==> l <= Scaled(d, l, u) <= u
    ensures l > u ==> u < Scaled(d, l, u) <= l
  {
    var w := u - l + 1;
    var q, r := (d * w) / RANGE, (d * w) % RANGE;
    assert d * w == q * RANGE + r;
    if l <= u {
      assert d * w <= (RANGE - 1) * w by { MulOrder(d, RANGE - 1, w); }
      MulOrder(0, d, w);
    } else {
      assert d * -w <= (RANGE - 1) * -w by { MulOrder(d, RANGE - 1, -w); }
      assert d * -w == -(d * w) && (RANGE - 1) * -w == w - RANGE * w;
      MulOrder(0, d, -w);
    }
  }

  /** Every number in a range no wider than the generator's can be drawn. */
  lemma ScaledReaches(v: int, l: int, u: int) returns (d: nat)
    requires l <= v <= u && u - l + 1 <= RANGE
    ensures d < RANGE && Scaled(d, l, u) == v
  {
    var w, k := u - l + 1, v - l;
    var q, r := (k * RANGE) / w, (k * RANGE) % w;
    d := if r == 0 then q else q + 1;
    assert k * RANGE == q * w + r;
    assert (q + 1) * w == q * w + w;
    var rest := d * w - k * RANGE;
    assert 0 <= rest < w;
    DivUnique(d * w, RANGE, k, rest);
    if d >= RANGE {
      TooFar(d, w, k);
      assert false;
    }
  }

  lemma TooFar(d: nat, w: nat, k: nat)
    requires RANGE <= d && k < w
    ensures k * RANGE + RANGE <= d * w
  {
    MulOrder(RANGE, d, w);
    MulOrder(k + 1, w, RANGE);
  }

  /** The source's own arithmetic, on exact fractions. */
  lemma DrawIsScaled(r: real, d: nat, l: int, u: int, w: real)
    requires r == d as real / RANGE as real && w == (u - l + 1) as real
    ensures (r * w).Floor + l == Scaled(d, l, u)
  {
    FloorOfRatio(d, u - l + 1);
  }

  lemma FloorOfRatio(d: nat, w: int)
    ensures (d as real / RANGE as real * w as real).Floor == (d * w) / RANGE
  {
    var q, r := (d * w) / RANGE, (d * w) % RANGE;
    assert d * w == q * RANGE + r;
    var x := d as real / RANGE as real * w as real;
    assert x * RANGE as real == (d * w) as real;
    assert x * RANGE as real == (q * RANGE + r) as real;
    assert (q * RANGE + r) as real == q as real * RANGE as real + r as real;
    assert (x - q as real) * RANGE as real == r as real;
    assert 0.0 <= x - q as real < 1.0;
  }

  /** What a draw d gives for the bounds: without bounds a fraction, else a number in their range. */
  function Drawn(d: nat, bounds: seq<int>): real
    requires |bounds| <= 2
  {
    if |bounds| == 0 then d as real / RANGE as real
    else if |bounds| == 1 then Scaled(d, 1, ToInt32(bounds[0])) as real
    else Scaled(d, ToInt32(bounds[0]), ToInt32(bounds[1])) as real
  }

  /** The bounds of a draw as the caller means them: one bound stands for the range from 1 to it. */
  function LowBound(bounds: seq<int>): int
    requires 1 <= |bounds| <= 2
  {
    if |bounds| == 1 then 1 else bounds[0]
  }

  predicate AreBounds(bounds: seq<int>) { forall b :: b in bounds ==> -0x8000_0000 <= b < 0x8000_0000 }

  lemma SameBounds(bounds: seq<int>)
    requires AreBounds(bounds)
    ensures forall i :: 0 <= i < |bounds| ==> ToInt32(bounds[i]) == bounds[i]
  {
    forall i | 0 <= i < |bounds| ensures ToInt32(bounds[i]) == bounds[i] {
      assert bounds[i] in bounds;
      DivUnique(bounds[i] + 0x8000_0000, 0x1_0000_0000, 0, bounds[i] + 0x8000_0000);
    }
  }

  /** Without bounds a draw is a fraction below one; with bounds in order it is a whole number between them, both included. */
  lemma DrawnInRange(d: nat, bounds: seq<int>)
    requires d < RANGE && |bounds| <= 2 && AreBounds(bounds)
    ensures bounds == [] ==> 0.0 <= Drawn(d, bounds) < 1.0
    ensures bounds != [] && LowBound(bounds) <= bounds[|bounds| - 1] ==>
              && LowBound(bounds) as real <= Drawn(d, bounds) <= bounds[|bounds| - 1] as real
              && Drawn(d, bounds) == Drawn(d, bounds).Floor as real
  {
    SameBounds(bounds);
    hide ToInt32, Scaled;
    if bounds != [] { ScaledInRange(d, LowBound(bounds), bounds[|bounds| - 1]); }
  }

  /** And each of these numbers is drawn by some output. */
  lemma DrawnReaches(v: int, bounds: seq<int>) returns (d: nat)
    requires 1 <= |bounds| <= 2 && AreBounds(bounds)
    requires LowBound(bounds) <= v <= bounds[|bounds| - 1] && bounds[|bounds| - 1] - LowBound(bounds) + 1 <= RANGE
    ensures d < RANGE && Drawn(d, bounds) == v as real
  {
    SameBounds(bounds);
    d := ScaledReaches(v, LowBound(bounds), bounds[|bounds| - 1]);
  }

  // ---- The colours ----------------------------------------------------------------------------

  /** What is taken from white in each channel. */
  datatype Ink = Ink(r: int, g: int, b: int) {
    function Sum(): int { r + g + b }

    /** No channel is negative. */
    predicate Channels() { r <= 0xff && g <= 0xff && b <= 0xff }

    /** The three channels fit in bytes, and the colour is neither too light nor too dark. */
    predicate IsColour() {
      0 <= 0xff - r <= 0xff && 0 <= 0xff - g <= 0xff && 0 <= 0xff - b <= 0xff && 128 <= Sum() <= 255
    }
  }

  function InkOf(x: nat, y: nat, z: nat): Ink {
    var r, g := Scaled(Output(x) % RANGE, 1, 128), Scaled(Output(y) % RANGE, 1, 128);
    var low, high := if r + g < 128 then 128 - r - g else 0, if r + g < 128 then 128 else 255 - r - g;
    Ink(r, g, Scaled(Output(z) % RANGE, low, high - 1))
  }

  lemma InkBuilt(x: nat, y: nat, z: nat, r: int, g: int, min: int, max: int, part: int)
    requires r == Scaled(Output(x) % RANGE, 1, 128) && g == Scaled(Output(y) % RANGE, 1, 128)
    requires min == (if r + g < 128 then 128 - r - g else 0) && max == if r + g < 128 then 128 else 255 - r - g
    requires part == ((Output(z) % RANGE) * (max - min)) / RANGE
    ensures Ink(r, g, min + part) == InkOf(x, y, z)
  {
    assert max - 1 - min + 1 == max - min;
  }

  function InkFor(n: int): Ink {
    var x := Next(Seeded(n));
    InkOf(x, Next(x), Next(Next(x)))
  }

  /** The draw of 128 from 1 to 128: one output in 128. */
  predicate IsTop(x: nat) { Output(x) % RANGE >= 0x7F00_0000 }

  lemma TopDraw(d: nat)
    requires d < RANGE
    ensures Scaled(d, 1, 128) == 128 <==> d >= 0x7F00_0000
  {
  }

  /** Only the two largest draws together miss a proper colour: one channel or the sum is then off by one. */
  lemma InkIsColour(x: nat, y: nat, z: nat)
    ensures var ink := InkOf(x, y, z); ink.IsColour() <==> !(IsTop(x) && IsTop(y))
    ensures InkOf(x, y, z).Channels()
    ensures IsTop(x) && IsTop(y) ==> InkOf(x, y, z) == Ink(128, 128, if Output(z) % RANGE == 0 then 0 else -1)
  {
    var dx, dy, dz := Output(x) % RANGE, Output(y) % RANGE, Output(z) % RANGE;
    TopDraw(dx);
    TopDraw(dy);
    ScaledInRange(dx, 1, 128);
    ScaledInRange(dy, 1, 128);
    var ink := InkOf(x, y, z);
    var low, high := if ink.r + ink.g < 128 then 128 - ink.r - ink.g else 0,
                     if ink.r + ink.g < 128 then 128 else 255 - ink.r - ink.g;
    ScaledInRange(dz, low, high - 1);
  }

  /** The colour of a name is proper unless the first two outputs after its seed are both at the top. */
  lemma NameIsColour(name: string)
    requires NameHash.IsBasic(name) && |name| < 0x4000_0000
    ensures var x := Next(Seeded(NameHash.SeedOf(name)));
            InkFor(NameHash.SeedOf(name)).IsColour() <==> !(IsTop(x) && IsTop(Next(x)))
  {
    var x := Next(Seeded(NameHash.SeedOf(name)));
    InkIsColour(x, Next(x), Next(Next(x)));
  }

  /** Such names do exist: the zone name "kmk" gives the channels 127, 127 and 256. */
  lemma ColourCanFail(name: string)
    requires name == "kmk"
    ensures NameHash.IsBasic(name) && InkFor(NameHash.SeedOf(name)) == Ink(128, 128, -1)
    ensures !InkFor(NameHash.SeedOf(name)).IsColour()
  {
    hide NameHash.SeedOf;
    SeedOfKmk(name);
    SeedMisses(NameHash.SeedOf(name));
  }

  /** One step, by its quotient. */
  lemma NextIs(x: nat, q: nat, y: nat)
    requires MULTIPLIER * x + 1 == q * WORD + y && y < WORD
    ensures Next(x) == y
  {
    DivUnique(MULTIPLIER * x + 1, WORD, q, y);
  }

  lemma FirstState(n: int)
    requires n == 0xb75a_a61a
    ensures Next(Seeded(n)) == 0xfe02_028d_4be2_9966
  {
    NextIs(0xb75a_a619, 0x3f41_dba9, 0xfe02_028d_4be2_9966);
    hide Next;
    assert Seeded(n) == 0xb75a_a619;
  }

  lemma SecondState(x: nat)
    requires x == 0xfe02_028d_4be2_9966
    ensures Next(x) == 0xfeb3_2ad7_514c_90ef
  {
    NextIs(0xfe02_028d_4be2_9966, 0x57a2_01ca_3d90_f4b4, 0xfeb3_2ad7_514c_90ef);
  }

  lemma ThirdState(x: nat)
    requires x == 0xfeb3_2ad7_514c_90ef
    ensures Next(x) == 0xcb6c_abc8_9577_0b04
  {
    NextIs(0xfeb3_2ad7_514c_90ef, 0x57df_205a_6898_b9e9, 0xcb6c_abc8_9577_0b04);
  }

  lemma MissedInk(x: nat, y: nat, z: nat)
    requires x == 0xfe02_028d_4be2_9966 && y == 0xfeb3_2ad7_514c_90ef && z == 0xcb6c_abc8_9577_0b04
    ensures InkOf(x, y, z) == Ink(128, 128, -1)
  {
    assert IsTop(x) && IsTop(y) && Output(z) % RANGE != 0;
    hide InkOf;
    InkIsColour(x, y, z);
  }

  lemma SeedMisses(n: int)
    requires n == 0xb75a_a61a
    ensures InkFor(n) == Ink(128, 128, -1)
  {
    hide Next, Seeded, InkOf;
    FirstState(n);
    var x := Next(Seeded(n));
    SecondState(x);
    ThirdState(Next(x));
    MissedInk(x, Next(x), Next(Next(x)));
  }

  lemma SeedOfKmk(name: string)
    requires |name| == 3 && name[0] == 'k' && name[1] == 'm' && name[2] == 'k'
    ensures NameHash.IsBasic(name) && NameHash.SeedOf(name) == 0xb75a_a61a
  {
    BytesOfThree(name);
    var b := NameHash.Bytes(name);
    assert b[0..] == b;
    var h := NameHash.MixRest(3, b);
    assert NameHash.MixFrom(3, b, 0) == h;
    assert NameHash.Stir(h) == 0xb488_840a;
    assert NameHash.HashNumber(b) == NameHash.LastSum(0xb488_840a);
  }

  lemma BytesOfThree(name: string)
    requires |name| == 3 && name[0] == 'k' && name[1] == 'm' && name[2] == 'k'
    ensures NameHash.IsBasic(name) && NameHash.Bytes(name) == [0x6b, 0x6d, 0x6b]
  {
    assert NameHash.IsBasic(name) && name == [name[0]] + [name[1]] + [name[2]];
    hide *;
    NameHash.ThreeBytes(name, name[0], name[1], name[2], 0x6b, 0x6d, 0x6b);
  }

  // ---- The generator on limbs -----------------------------------------------------------------

  lemma SmallWord(a: seq<nat>)
    requires IsWord(a) && Val(a) < 0x8000_0000
    ensures Val(a) == a[0] + BASE * a[1] && a[1] < 0x8000
  {
    var b, c, d := a[1..], a[2..], a[3..];
    assert b[1..] == c && c[1..] == d && d[1..] == [];
    assert Val(d) == a[3] + BASE * Val([]);
  }

  lemma JoinWord(a: seq<nat>)
    requires IsWord(a) && Val(a) < 0x8000_0000
    ensures Or(Shl(a[1], 16), a[0]) == Val(a)
  {
    SmallWord(a);
    Pow2Values();
    var high := a[1] * BASE;
    ShlSmall(a[1], 16, high);
    OrDisjointInt(a[0], a[1], 16, high);
    Small(high);
    Small(a[0]);
    OrSwaps(high, a[0]);
  }

  lemma SeedLimbs(m: int, lo: int, hi: nat)
    requires lo == And(m, 0xffff) && hi == UShr(m, 16)
    ensures 0 <= lo < BASE && hi < BASE && lo + BASE * hi == ToUint32(m)
  {
    Pow2Values();
    AndOnesInt(m, 16, 0xffff);
    HighLow(ToUint32(m), 16);
  }

  lemma TwoLimbs(lo: nat, hi: nat)
    ensures Val([lo, hi, 0, 0]) == lo + BASE * hi
  {
    var a: seq<nat> := [lo, hi, 0, 0];
    assert a[1..] == [hi, 0, 0] && a[1..][1..] == [0, 0];
    ValZero([0, 0]);
    assert Val(a[1..]) == hi;
  }

  lemma MultiplierLimbs()
    ensures IsWord([0x7f2d, 0x4c95, 0xf42d, 0x5851]) && Val([0x7f2d, 0x4c95, 0xf42d, 0x5851]) == MULTIPLIER
  {
    var a: seq<nat> := [0x7f2d, 0x4c95, 0xf42d, 0x5851];
    assert a[1..] == [0x4c95, 0xf42d, 0x5851] && a[1..][1..] == [0xf42d, 0x5851];
    assert [0xf42d, 0x5851][1..] == [0x5851] && [0x5851][1..] == [];
    assert Val([0x5851]) == 0x5851 + BASE * Val([]);
    assert Val([0xf42d, 0x5851]) == 0xf42d + BASE * 0x5851;
    assert Val(a[1..]) == 0x4c95 + BASE * (0xf42d + BASE * 0x5851);
  }

  /** One more step of the generator on limbs. */
  method Advance(s: seq<nat>) returns (t: seq<nat>)
    requires IsWord(s)
    ensures IsWord(t) && Val(t) == Next(Val(s))
  {
    MultiplierLimbs();
    t := Mul(s, [0x7f2d, 0x4c95, 0xf42d, 0x5851]);
    ghost var product := Val(s) * MULTIPLIER;
    AddOneOfMod(product);
    t := Add(t, 1);
  }

  lemma AddOneOfMod(y: nat)
    ensures (y % WORD + 1) % WORD == (y + 1) % WORD
  {
    var q, a, b := y / WORD, (y % WORD + 1) / WORD, (y % WORD + 1) % WORD;
    DivUnique(y + 1, WORD, q + a, b);
  }

  class Generator {
    var s: seq<nat>

    ghost predicate Valid()
      reads this
    {
      IsWord(s)
    }

    ghost function Value(): nat
      reads this
    {
      Val(s)
    }

    constructor ()
      ensures Valid() && Value() == 0
    {
      s := [0, 0, 0, 0];
      ValZero([0, 0, 0, 0]);
    }

    method Seed(n: int)
      requires Valid()
      modifies this
      ensures Valid() && Value() == Seeded(n)
    {
      var m := ToInt32(n - 1);
      var lo, hi := And(m, 0xffff), UShr(m, 16);
      SeedLimbs(m, lo, hi);
      SameBits(n - 1, m);
      TwoLimbs(lo, hi);
      s := s[0 := lo];
      s := s[1 := hi];
      s := s[2 := 0];
      s := s[3 := 0];
      assert s == [lo, hi, 0, 0];
    }

    /** The next state, and its upper 31 bits. */
    method Int() returns (r: int)
      requires Valid()
      modifies this
      ensures Valid() && Value() == Next(old(Value()))
      ensures r == Output(Value()) && 0 <= r < 0x8000_0000
    {
      s := Advance(s);
      var q := ShiftRight(s, 33);
      Pow2Values();
      Pow2Add(32, 1);
      ValBound(s);
      PowerFour();
      OutputBound(Val(s));
      JoinWord(q);
      r := Or(Shl(q[1], 16), q[0]);
    }

    method Fraction() returns (r: real)
      requires Valid()
      modifies this
      ensures Valid() && Value() == Next(old(Value()))
      ensures r == (Output(Value()) % RANGE) as real / RANGE as real && 0.0 <= r < 1.0
    {
      var x := Int();
      r := (x % RANGE) as real / RANGE as real;
    }

    /** No bounds: a fraction below one.  One bound u: from 1 to u.  Two bounds: from the first to the second. */
    method Get(bounds: seq<int>) returns (v: real)
      requires Valid() && |bounds| <= 2
      modifies this
      ensures Valid() && Value() == Next(old(Value()))
      ensures v == Drawn(Output(Value()) % RANGE, bounds)
    {
      var r := Fraction();
      if |bounds| == 0 { return r; }
      var l, u := 1, ToInt32(bounds[0]);
      if |bounds| == 2 {
        l, u := ToInt32(bounds[0]), ToInt32(bounds[1]);
      }
      var w := (u - l + 1) as real;
      DrawIsScaled(r, Output(Value()) % RANGE, l, u, w);
      v := ((r * w).Floor + l) as real;
    }

    /** Draws from 1 to 128. */
    method Draw128() returns (n: int)
      requires Valid()
      modifies this
      ensures Valid() && Value() == Next(old(Value())) && n == Scaled(Output(Value()) % RANGE, 1, 128)
    {
      var v := Get([128]);
      n := v.Floor;
    }

    /** The whole part of a fraction of w. */
    method DrawPart(w: int) returns (n: int)
      requires Valid()
      modifies this
      ensures Valid() && Value() == Next(old(Value())) && n == ((Output(Value()) % RANGE) * w) / RANGE
    {
      var v := Get([]);
      n := (v * w as real).Floor;
      FloorOfRatio(Output(Value()) % RANGE, w);
    }

    /** The colour of a name. */
    method DeriveColor(name: string) returns (ink: Ink, text: string)
      requires Valid() && NameHash.IsBasic(name) && |name| < 0x4000_0000
      modifies this
      ensures Valid() && Value() == State(Seeded(NameHash.SeedOf(name)), 3)
      ensures ink == InkFor(NameHash.SeedOf(name)) && ink.Channels()
      ensures text == "#" + TwoHex(0xff - ink.r) + TwoHex(0xff - ink.g) + TwoHex(0xff - ink.b)
    {
      hide NameHash.SeedOf;
      var n := NameHash.Seed(name);
      Seed(n);
      ThreeSteps(Value());
      var r := Draw128();
      ghost var x := Value();
      var g := Draw128();
      ghost var y := Value();
      var min, max := 0, 128;
      if r + g < 128 {
        min := 128 - r - g;
      } else {
        max := 255 - r - g;
      }
      var part := DrawPart(max - min);
      ink := Ink(r, g, min + part);
      InkBuilt(x, y, Value(), r, g, min, max, part);
      InkIsColour(x, y, Value());
      text := "#" + TwoHex(0xff - ink.r) + TwoHex(0xff - ink.g) + TwoHex(0xff - ink.b);
    }
  }

  lemma ThreeSteps(x: nat)
    ensures Next(Next(Next(x))) == State(x, 3)
  {
    assert State(x, 1) == Next(State(x, 0));
    assert State(x, 2) == Next(State(x, 1));
  }

  /** `%02x`. */
  function TwoHex(n: nat): (s: string)
    ensures |s| == 2 <==> n <= 0xff
    ensures IpText.AllHex(s) && IpText.HexOf(s) == n
  {
    var s := IpText.HexStr(n);
    IpText.LeadingZero(s);
    if |s| < 2 then "0" + s else s
  }
}
