/**
 * Numbers as lists of words, most significant word first, and prefixes: n ones and then zeros.
 *
 * A prefix of n bits is cut into words by `PrefixWords`; as one number it is `Ones`.  Clearing or
 * filling the bits outside a prefix can be done byte by byte or on the whole number, with the same
 * result: `NetNumber` says so for any number of bytes.
 *
 * Both facts are proved from the top word downwards.
 */
module PrefixNumbers {
  import opened Bits

  // ---- Words and prefixes -----------------------------------------------------------------------

  function BigEndian(words: seq<nat>, width: nat): nat {
    if words == [] then 0 else words[0] * Pow2(width * (|words| - 1)) + BigEndian(words[1..], width)
  }

  predicate Fit(words: seq<nat>, width: nat) { forall i :: 0 <= i < |words| ==> words[i] < Pow2(width) }

  /** k ones and then zeros, in a word of the given width. */
  function Ones(width: nat, k: nat): nat
    requires k <= width
  {
    if k == 0 then 0 else Pow2(width - 1) + Ones(width - 1, k - 1)
  }

  lemma {:induction false} OnesValue(width: nat, k: nat)
    requires k <= width
    ensures Ones(width, k) == Pow2(width) - Pow2(width - k)
  {
    if k > 0 { OnesValue(width - 1, k - 1); }
  }

  /** How much of a prefix of n bits falls into one word. */
  function Part(n: nat, width: nat): nat { if n < width then n else width }

  /** A prefix of n bits over a number of words. */
  function PrefixWords(n: nat, width: nat, count: nat): (words: seq<nat>)
    ensures |words| == count
    decreases count
  {
    if count == 0 then []
    else [Ones(width, Part(n, width))] + PrefixWords(n - Part(n, width), width, count - 1)
  }

  lemma {:induction false} BigEndianBound(words: seq<nat>, width: nat, total: nat)
    requires Fit(words, width) && total == width * |words|
    ensures BigEndian(words, width) < Pow2(total)
  {
    if words != [] {
      var rest := width * (|words| - 1);
      BigEndianBound(words[1..], width, rest);
      Pow2Add(width, rest);
      assert width + rest == total;
      TopWordBound(words[0], BigEndian(words[1..], width), Pow2(width), Pow2(rest));
    }
  }

  lemma TopWordBound(top: nat, low: nat, p: nat, q: nat)
    requires top < p && low < q
    ensures top * q + low < p * q
  {
    MulOrder(top + 1, p, q);
    assert (top + 1) * q == top * q + q;
  }

  /** Two lists with the same number are the same words. */
  lemma {:induction false} BigEndianInjective(a: seq<nat>, b: seq<nat>, width: nat)
    requires |a| == |b| && Fit(a, width) && Fit(b, width) && BigEndian(a, width) == BigEndian(b, width)
    ensures a == b
  {
    if a != [] {
      var rest := width * (|a| - 1);
      BigEndianBound(a[1..], width, rest);
      BigEndianBound(b[1..], width, rest);
      Unique(a[0], BigEndian(a[1..], width), b[0], BigEndian(b[1..], width), Pow2(rest));
      BigEndianInjective(a[1..], b[1..], width);
      assert a == [a[0]] + a[1..] && b == [b[0]] + b[1..];
    }
  }

  lemma {:induction false} PrefixWordsFit(n: nat, width: nat, count: nat)
    ensures Fit(PrefixWords(n, width, count), width)
  {
    if count > 0 {
      OnesValue(width, Part(n, width));
      PrefixWordsFit(n - Part(n, width), width, count - 1);
    }
  }

  lemma TopWord(words: seq<nat>, width: nat, count: nat, rest: nat)
    requires |words| == count + 1 && rest == width * count
    ensures BigEndian(words, width) == words[0] * Pow2(rest) + BigEndian(words[1..], width)
  {
  }

  /** The words of a prefix of n bits are the number of n ones followed by zeros. */
  lemma {:induction false} PrefixWordsAreOnes(n: nat, width: nat, count: nat, total: nat)
    requires total == width * count && n <= total
    ensures BigEndian(PrefixWords(n, width, count), width) == Ones(total, n)
  {
    if count > 0 {
      var k, rest, below := Part(n, width), width * (count - 1), count - 1;
      SmallerTotal(width, count, rest);
      var words, tail := PrefixWords(n, width, count), PrefixWords(n - k, width, below);
      assert words[0] == Ones(width, k) && words[1..] == tail && n - k <= rest;
      TopWord(words, width, below, rest);
      hide *;
      PrefixWordsAreOnes(n - k, width, below, rest);
      OnesAppend(width, rest, n, k);
    }
  }

  lemma SmallerTotal(width: nat, count: nat, rest: nat)
    requires count > 0 && rest == width * (count - 1)
    ensures rest + width == width * count
  {
  }

  /** A prefix of width + rest bits, cut after its first word. */
  lemma OnesAppend(width: nat, rest: nat, n: nat, k: nat)
    requires n <= width + rest && k == Part(n, width)
    ensures Ones(width, k) * Pow2(rest) + Ones(rest, n - k) == Ones(width + rest, n)
  {
    if n < width { ShortPrefix(width, rest, n); } else { LongPrefix(width, rest, n); }
  }

  lemma ShortPrefix(width: nat, rest: nat, n: nat)
    requires n < width
    ensures Ones(width, n) * Pow2(rest) + Ones(rest, 0) == Ones(width + rest, n)
  {
    OnesValue(width, n);
    OnesValue(width + rest, n);
    Pow2Add(width, rest);
    Pow2Add(width - n, rest);
    assert width + rest - n == width - n + rest;
    CutOnes(Pow2(width), Pow2(width - n), Pow2(rest), Ones(width, n));
  }

  lemma LongPrefix(width: nat, rest: nat, n: nat)
    requires width <= n <= width + rest
    ensures Ones(width, width) * Pow2(rest) + Ones(rest, n - width) == Ones(width + rest, n)
  {
    OnesValue(width, width);
    OnesValue(rest, n - width);
    OnesValue(width + rest, n);
    Pow2Add(width, rest);
    assert width + rest - n == rest - (n - width);
    CutOnes(Pow2(width), 1, Pow2(rest), Ones(width, width));
  }

  lemma CutOnes(p: nat, q: nat, r: nat, ones: nat)
    requires ones == p - q
    ensures ones * r == p * r - q * r
  {
  }

  lemma {:induction false} PrefixWordsAt(n: nat, width: nat, count: nat, i: nat, before: nat)
    requires i < count && before == i * width
    ensures PrefixWords(n, width, count)[i] == Ones(width, Part(if n < before then 0 else n - before, width))
  {
    if i > 0 {
      assert before - width == (i - 1) * width;
      PrefixWordsAt(n - Part(n, width), width, count - 1, i - 1, before - width);
    }
  }

  lemma OnesGrow(width: nat, j: nat, k: nat)
    requires j <= k <= width
    ensures Ones(width, j) <= Ones(width, k)
  {
    OnesValue(width, j);
    OnesValue(width, k);
    Pow2Grows(width - k, width - j);
  }

  // ---- Outside a prefix -------------------------------------------------------------------------

  predicate AreBytes(a: seq<nat>) { forall i :: 0 <= i < |a| ==> a[i] < 0x100 }

  /** Clearing the bits below a prefix, and filling them, as numbers. */
  ghost predicate Cleared(net: int, broad: int, x: nat, bits: nat) {
    net == x - Low(x, bits) && broad == net + Pow2(bits) - 1
  }

  /** How many bits of byte i lie outside a prefix of n bits. */
  function Outside(n: nat, i: nat): nat {
    if n <= 8 * i then 8 else if n >= 8 * i + 8 then 0 else 8 * i + 8 - n
  }

  ghost predicate ClearedAt(a: seq<nat>, net: seq<nat>, broad: seq<nat>, n: nat, i: nat)
    requires i < |a| == |net| == |broad|
  {
    Cleared(net[i], broad[i], a[i], Outside(n, i))
  }

  ghost predicate Bytewise(a: seq<nat>, net: seq<nat>, broad: seq<nat>, n: nat) {
    |a| == |net| == |broad| && forall i :: 0 <= i < |a| ==> ClearedAt(a, net, broad, n, i)
  }

  lemma BytewiseTail(a: seq<nat>, net: seq<nat>, broad: seq<nat>, n: nat, n1: nat, j: nat)
    requires a != [] && Bytewise(a, net, broad, n) && n1 == n - Part(n, 8) && j == 8 - Part(n, 8)
    ensures Bytewise(a[1..], net[1..], broad[1..], n1)
    ensures Cleared(net[0], broad[0], a[0], j)
  {
    assert Outside(n, 0) == j && ClearedAt(a, net, broad, n, 0);
    forall i | 0 <= i < |a| - 1 ensures ClearedAt(a[1..], net[1..], broad[1..], n1, i) {
      assert Outside(n1, i) == Outside(n, i + 1);
      assert ClearedAt(a, net, broad, n, i + 1);
    }
  }

  /** The low bits of a number whose part below bit n is given separately. */
  lemma {:induction false} LowOfLow(top: nat, low: nat, n: nat, j: nat, p: nat, x: nat)
    requires p == Pow2(n) && low < p && x == top * p + low && j <= n
    ensures Low(x, j) == Low(low, j)
  {
    if j > 0 {
      Double(top, p / 2);
      LowOfLow(top, low / 2, n - 1, j - 1, p / 2, x / 2);
    }
  }

  lemma {:induction false} LowOfTop(top: nat, low: nat, n: nat, j: nat, p: nat, x: nat)
    requires p == Pow2(n) && low < p && x == top * p + low
    ensures Low(x, n + j) == Low(top, j) * p + low
  {
    if n == 0 {
      assert p == 1;
      hide *;
      assert low == 0 && x == top && n + j == j;
    } else {
      hide *;
      var h, m, n1, m1 := p / 2, n + j, n - 1, n + j - 1;
      HalfPower(n, p, h, n1);
      LowStep(x, m, m1);
      HalfOf(top, low, p, h, x);
      LowOfTop(top, low / 2, n1, j, h, x / 2);
      TwiceHalf(Low(top, j), h, p, low, Low(x / 2, m1), Low(x, m));
    }
  }

  lemma TwiceHalf(keep: nat, h: nat, p: nat, low: nat, half: nat, r: nat)
    requires p == 2 * h && half == keep * h + low / 2 && r == 2 * half + low % 2
    ensures r == keep * p + low
  {
    Double(keep, h);
  }

  lemma HalfPower(n: nat, p: nat, h: nat, n1: nat)
    requires n1 + 1 == n && p == Pow2(n) && h == p / 2
    ensures p == 2 * h && h == Pow2(n1)
  {
  }

  lemma LowStep(x: nat, m: nat, m1: nat)
    requires m1 + 1 == m
    ensures Low(x, m) == 2 * Low(x / 2, m1) + x % 2
  {
  }

  lemma HalfOf(top: nat, low: nat, p: nat, h: nat, x: nat)
    requires x == top * p + low && p == 2 * h
    ensures x / 2 == top * h + low / 2 && x % 2 == low % 2
  {
    Double(top, h);
  }

  lemma Double(x: nat, p: nat)
    ensures 0 <= x * p && x * (2 * p) == 2 * (x * p)
  {
  }

  lemma {:induction false} BytesFit(a: seq<nat>, total: nat)
    requires AreBytes(a) && total == 8 * |a|
    ensures BigEndian(a, 8) < Pow2(total)
  {
    Pow2Values();
    BigEndianBound(a, 8, total);
  }

  /** The prefix ends inside the top byte. */
  lemma EndsInTop(top: nat, netTop: int, broadTop: int, low: nat, rest: nat, j: nat, r: nat, x: nat, net: int, broad: int, bits: nat)
    requires low < r == Pow2(rest) && Cleared(netTop, broadTop, top, j) && bits == rest + j
    requires x == top * r + low && net == netTop * r && broad == broadTop * r + (r - 1)
    ensures Cleared(net, broad, x, bits)
  {
    LowOfTop(top, low, rest, j, r, x);
    Pow2Add(rest, j);
    SpreadTop(top, Low(top, j), Pow2(j), r, netTop, broadTop);
  }

  lemma SpreadTop(top: nat, keep: nat, q: nat, r: nat, netTop: int, broadTop: int)
    requires netTop == top - keep && broadTop == netTop + q - 1
    ensures netTop * r == top * r - keep * r && broadTop * r + (r - 1) == netTop * r + r * q - 1
  {
  }

  /** The prefix goes past the top byte. */
  lemma EndsBelowTop(top: nat, low: nat, rest: nat, bits: nat, r: nat, x: nat, net: int, broad: int, high: nat)
    requires low < r == Pow2(rest) && bits <= rest && Cleared(net, broad, low, bits) && high == top * r && x == high + low
    ensures Cleared(high + net, high + broad, x, bits)
  {
    LowOfLow(top, low, rest, bits, r, x);
  }

  /** A top byte is put before a number for which the claim holds already. */
  lemma NetTop(top: nat, netTop: int, broadTop: int, j: nat, low: nat, lowNet: int, lowBroad: int, below: nat,
               rest: nat, r: nat, bits: nat, x: nat, net: int, broad: int)
    requires low < r == Pow2(rest) && Cleared(netTop, broadTop, top, j) && Cleared(lowNet, lowBroad, low, below)
    requires x == top * r + low && net == netTop * r + lowNet && broad == broadTop * r + lowBroad
    requires if j > 0 then below == rest && bits == rest + j else below == bits <= rest
    ensures Cleared(net, broad, x, bits)
  {
    if j > 0 {
      NothingBelow(low, rest, r, lowNet, lowBroad);
      EndsInTop(top, netTop, broadTop, low, rest, j, r, x, net, broad, bits);
    } else {
      NothingOutside(top, netTop, broadTop);
      EndsBelowTop(top, low, rest, bits, r, x, lowNet, lowBroad, x - low);
    }
  }

  lemma NothingBelow(low: nat, rest: nat, r: nat, net: int, broad: int)
    requires low < r == Pow2(rest) && Cleared(net, broad, low, rest)
    ensures net == 0 && broad == r - 1
  {
    HighUnique(low, rest, 0, low);
  }

  lemma NothingOutside(top: nat, netTop: int, broadTop: int)
    requires Cleared(netTop, broadTop, top, 0)
    ensures netTop == broadTop == top
  {
  }

  lemma {:induction false} NetNumber(a: seq<nat>, net: seq<nat>, broad: seq<nat>, n: nat, bits: nat)
    requires AreBytes(a) && Bytewise(a, net, broad, n) && n + bits == 8 * |a|
    ensures Cleared(BigEndian(net, 8), BigEndian(broad, 8), BigEndian(a, 8), bits)
  {
    if a != [] {
      var rest, k := 8 * (|a| - 1), Part(n, 8);
      var n1, j, below := n - k, 8 - k, rest - (n - k);
      BytewiseTail(a, net, broad, n, n1, j);
      NetNumber(a[1..], net[1..], broad[1..], n1, below);
      BytesFit(a[1..], rest);
      TopByte(a, rest);
      TopByte(net, rest);
      TopByte(broad, rest);
      NetTop(a[0], net[0], broad[0], j, BigEndian(a[1..], 8), BigEndian(net[1..], 8), BigEndian(broad[1..], 8), below,
             rest, Pow2(rest), bits, BigEndian(a, 8), BigEndian(net, 8), BigEndian(broad, 8));
    }
  }

  lemma TopByte(words: seq<nat>, rest: nat)
    requires words != [] && rest == 8 * (|words| - 1)
    ensures BigEndian(words, 8) == words[0] * Pow2(rest) + BigEndian(words[1..], 8)
  {
  }
}
