/**
 * Network prefixes and network masks: conversion in both directions, through the text of the mask.
 *
 * A mask is made word by word: `MaskWords` are the words, `MaskText` is the text, with trailing zero
 * groups shortened for IPv6.  A mask is read back by shifting the ones out of each word.
 *
 * What is accepted that way is weaker than a contiguous mask; the round trips say what is lost.
 */
module Masks {
  import opened Common
  import opened Bits
  import opened PrefixNumbers
  import opened IpText
  import opened Strings

  // ---- From a prefix to a mask ------------------------------------------------------------------

  /** One word of the loop: b ones.  A negative b moves sixteen ones up by 16 - b places, modulo 32. */
  function MaskWord(b: int): nat
    requires b <= 16
  {
    if b >= 0 then Ones(16, b) else WrappedWord((16 - b) % 32)
  }

  function WrappedWord(up: nat): nat { if up >= 16 then 0 else Ones(16, 16 - up) }

  lemma MaskWordIsShift(b: int, up: nat, product: nat, shifted: int)
    requires b <= 16 && up == (16 - b) % 32 && product == 0xffff * Pow2(up) && shifted == ToInt32(product)
    ensures And(shifted, 0xffff) == MaskWord(b)
  {
    LowWord(up, Pow2(up), product);
    LowOfShift(product, shifted, ToUint32(shifted));
    WordOfShift(b, up);
  }

  lemma WordOfShift(b: int, up: nat)
    requires b <= 16 && up == (16 - b) % 32
    ensures MaskWord(b) == if up >= 16 then 0 else 0x10000 - Pow2(up)
  {
    if b >= 0 { TopOnes(16, b, up); } else if up < 16 { TopOnes(16, 16 - up, up); }
  }

  lemma TopOnes(width: nat, k: nat, up: nat)
    requires width == 16 && k <= 16 && up == 16 - k
    ensures Ones(width, k) == (if up >= 16 then 0 else 0x10000 - Pow2(up))
  {
    Pow2Values();
    OnesValue(width, k);
    hide Ones;
  }

  lemma LowOfShift(product: nat, shifted: int, bits: nat)
    requires shifted == ToInt32(product) && bits == ToUint32(shifted)
    ensures And(shifted, 0xffff) == product % 0x10000
  {
    SameBits(product, shifted);
    ModTwice(product, bits);
    Pow2Values();
    AndOnesInt(shifted, 16, 0xffff);
    HighLowAreDivMod(bits, 16);
  }

  lemma ModTwice(x: nat, y: nat)
    requires y == x % 0x1_0000_0000
    ensures y % 0x10000 == x % 0x10000
  {
    var q := x / 0x1_0000_0000;
    DivUnique(x, 0x10000, q * 0x10000 + y / 0x10000, y % 0x10000);
  }

  lemma LowWord(up: nat, p: nat, product: nat)
    requires p == Pow2(up) && product == 0xffff * p
    ensures product % 0x10000 == if up >= 16 then 0 else 0x10000 - p
  {
    Pow2Values();
    if up >= 16 {
      Pow2Add(16, up - 16);
      DivUnique(product, 0x10000, 0xffff * Pow2(up - 16), 0);
    } else {
      Pow2Grows(up, 16);
      DivUnique(product, 0x10000, p - 1, 0x10000 - p);
    }
  }

  function Least(a: int, b: int): int { if a < b then a else b }

  /** What the loop collects, for any number of bits. */
  function MaskWords(bits: int, count: nat): (words: seq<nat>)
    ensures |words| == count
    decreases count
  {
    if count == 0 then []
    else [MaskWord(Least(16, bits))] + MaskWords(bits - Least(16, bits), count - 1)
  }

  lemma {:induction false} MaskWordsArePrefix(bits: nat, count: nat)
    ensures MaskWords(bits, count) == PrefixWords(bits, 16, count)
  {
    hide Ones;
    if count > 0 {
      var k := Part(bits, 16);
      assert Least(16, bits) == k;
      MaskWordsArePrefix(bits - k, count - 1);
    }
  }

  /** What is still to collect makes up the whole list with what is there. */
  ghost predicate Collecting(m: seq<nat>, bits: int, left: nat, target: seq<nat>) { m + MaskWords(bits, left) == target }

  lemma CollectStep(m: seq<nat>, bits: int, left: nat, target: seq<nat>, b: int, word: nat)
    requires left > 0 && Collecting(m, bits, left, target) && b == Least(16, bits) && word == MaskWord(b)
    ensures Collecting(m + [word], bits - b, left - 1, target)
  {
    hide MaskWord, Least;
    var next := MaskWords(bits - b, left - 1);
    assert MaskWords(bits, left) == [word] + next;
    assert m + ([word] + next) == m + [word] + next;
  }

  method ShiftedWord(b: int) returns (word: nat)
    requires b <= 16
    ensures word == MaskWord(b)
  {
    ghost var up := (16 - b) % 32;
    var shifted := Shl(0xffff, 16 - b);
    MaskWordIsShift(b, up, 0xffff * Pow2(up), shifted);
    word := And(shifted, 0xffff);
  }

  method CollectWords(bits0: int, count: nat) returns (m: seq<nat>)
    ensures m == MaskWords(bits0, count)
  {
    hide MaskWords, MaskWord, Collecting;
    m := [];
    var bits := bits0;
    ghost var left, target := count, MaskWords(bits0, count);
    NothingCollected(bits, left, target);
    for i := 0 to count
      invariant left == count - i && Collecting(m, bits, left, target)
    {
      var b := Least(16, bits);
      var word := ShiftedWord(b);
      CollectStep(m, bits, left, target, b, word);
      m := m + [word];
      bits := bits - b;
      left := left - 1;
    }
    Collected(m, bits, target);
  }

  lemma NothingCollected(bits: int, left: nat, target: seq<nat>)
    requires target == MaskWords(bits, left)
    ensures Collecting([], bits, left, target)
  {
  }

  lemma Collected(m: seq<nat>, bits: int, target: seq<nat>)
    requires Collecting(m, bits, 0, target)
    ensures m == target
  {
  }

  /** "%x" of each word. */
  function HexGroups(words: seq<nat>): (groups: seq<string>)
    ensures |groups| == |words|
  {
    if words == [] then [] else [HexStr(words[0])] + HexGroups(words[1..])
  }

  /** What is left when every trailing ":0" is taken away. */
  function Stripped(s: string): (t: string)
    ensures |t| <= |s|
  {
    if EndsInZero(s) then Stripped(s[..|s| - 2]) else s
  }

  predicate EndsInZero(s: string) { |s| >= 2 && s[|s| - 2] == ':' && s[|s| - 1] == '0' }

  /** At least two trailing ":0" become "::". */
  function Shorten(s: string): string {
    var t := Stripped(s);
    if |s| - |t| >= 4 then t + "::" else s
  }

  function Dotted(octets: seq<nat>): string { Join(DecimalParts(octets), '.') }

  function DecimalParts(octets: seq<nat>): (parts: seq<string>)
    ensures |parts| == |octets|
  {
    if octets == [] then [] else [NatStr(octets[0])] + DecimalParts(octets[1..])
  }

  lemma {:induction false} DecimalOctets(octets: seq<nat>)
    requires forall i :: 0 <= i < |octets| ==> octets[i] <= 255
    ensures forall i :: 0 <= i < |octets| ==>
              IsOctet(DecimalParts(octets)[i]) && NatOf(DecimalParts(octets)[i]) == octets[i]
  {
    if octets != [] { DecimalOctets(octets[1..]); }
  }

  /** Dotted text is read back. */
  lemma DottedReads(octets: seq<nat>)
    requires |octets| == 4 && forall i :: 0 <= i < 4 ==> octets[i] <= 255
    ensures ParseIPv4(Dotted(octets)) == Some(octets)
  {
    var parts := DecimalParts(octets);
    DecimalOctets(octets);
    ParseIPv4Inverts(parts);
    assert octets == [NatOf(parts[0]), NatOf(parts[1]), NatOf(parts[2]), NatOf(parts[3])];
  }

  // ---- The shortened IPv6 text ------------------------------------------------------------------

  lemma {:induction false} HexGroupsValues(words: seq<nat>)
    requires Fit(words, 16)
    ensures AllGroups(HexGroups(words)) && Values(HexGroups(words)) == words
  {
    Pow2Values();
    if words != [] {
      assert words[0] < 0x10000;
      HexGroupsValues(words[1..]);
      assert [words[0]] + words[1..] == words;
    }
  }

  lemma {:induction false} HexGroupsFront(words: seq<nat>, n: nat)
    requires n <= |words|
    ensures HexGroups(words[..n]) == HexGroups(words)[..n]
    ensures n < |words| ==> HexGroups(words)[n] == HexStr(words[n])
  {
    hide HexStr;
    if n > 0 {
      HexGroupsFront(words[1..], n - 1);
      assert words[..n][1..] == words[1..][..n - 1];
    }
  }

  /** How many words stay: all but the trailing zeros, and at least one. */
  function Keep(words: seq<nat>): (k: nat)
    requires words != []
    ensures 1 <= k <= |words| && forall i :: k <= i < |words| ==> words[i] == 0
  {
    if |words| > 1 && words[|words| - 1] == 0 then Keep(words[..|words| - 1]) else |words|
  }

  lemma LastGroup(front: string, g: string)
    requires AllHex(g) && g != "" && HexOf(g) != 0
    ensures !EndsInZero(front + ":" + g)
  {
    var s := front + ":" + g;
    assert s[|s| - 1] == g[|g| - 1];
    if |g| > 1 {
      assert s[|s| - 2] == g[|g| - 2] && g[|g| - 2] in g && !IsHex(':');
    } else {
      OneDigit(g);
    }
  }

  lemma OneDigit(g: string)
    requires AllHex(g) && |g| == 1
    ensures HexOf(g) == HexValue(g[0])
  {
    assert g[..|g| - 1] == "";
  }

  lemma NoColon(g: string)
    requires AllHex(g)
    ensures !EndsInZero(g)
  {
    if |g| >= 2 { assert g[|g| - 2] in g && !IsHex(':'); }
  }

  lemma LastHexGroup(words: seq<nat>, front: seq<nat>, n: nat)
    requires n > 0 && |words| == n + 1 && front == words[..n]
    ensures Join(HexGroups(words), ':') == Join(HexGroups(front), ':') + ":" + HexStr(words[n])
  {
    hide HexStr;
    HexGroupsFront(words, n);
    JoinLast(HexGroups(words), ':');
  }

  lemma OneGroup(words: seq<nat>)
    requires |words| == 1
    ensures !EndsInZero(Join(HexGroups(words), ':')) && Keep(words) == 1
  {
    hide HexStr, HexOf, EndsInZero;
    NoColon(HexGroups(words)[0]);
  }

  lemma StripZero(s: string, t: string)
    requires s == t + ":" + "0"
    ensures Stripped(s) == Stripped(t) && |s| == |t| + 2
  {
    assert s[..|s| - 2] == t && EndsInZero(s);
  }

  lemma KeepLast(words: seq<nat>, front: seq<nat>, n: nat)
    requires n > 0 && |words| == n + 1 && front == words[..n]
    ensures words[..Keep(words)] == if words[n] == 0 then front[..Keep(front)] else words
    ensures Keep(words) == if words[n] == 0 then Keep(front) else n + 1
  {
  }

  lemma {:induction false} StripsZeros(words: seq<nat>)
    requires words != []
    ensures Stripped(Join(HexGroups(words), ':')) == Join(HexGroups(words[..Keep(words)]), ':')
    ensures |Join(HexGroups(words), ':')| == |Join(HexGroups(words[..Keep(words)]), ':')| + 2 * (|words| - Keep(words))
  {
    var n := |words| - 1;
    if n == 0 {
      OneGroup(words);
      assert words[..1] == words;
    } else {
      hide *;
      var front, s := words[..n], Join(HexGroups(words), ':');
      var t := Join(HexGroups(front), ':');
      LastHexGroup(words, front, n);
      KeepLast(words, front, n);
      if words[n] == 0 {
        ZeroDigit(words[n]);
        StripZero(s, t);
        StripsZeros(front);
      } else {
        LastGroup(t, HexStr(words[n]));
        NotStripped(s);
      }
    }
  }

  lemma ZeroDigit(n: nat)
    requires n == 0
    ensures HexStr(n) == "0"
  {
  }

  lemma NotStripped(s: string)
    requires !EndsInZero(s)
    ensures Stripped(s) == s
  {
  }

  lemma ZerosRead(words: seq<nat>, k: nat)
    requires |words| == 8 && Fit(words, 16) && k <= 6 && forall i :: k <= i < 8 ==> words[i] == 0
    ensures ParseIPv6(Join(HexGroups(words[..k]), ':') + "::") == Some(words)
  {
    var kept := HexGroups(words[..k]);
    HexGroupsValues(words[..k]);
    assert words[8..] == [];
    ParseIPv6InvertsCompressed(words, kept, [], k, 8);
    assert Join(kept, ':') + "::" + Join([], ':') == Join(kept, ':') + "::";
  }

  /** Eight words, printed and shortened, are read back. */
  lemma ShortenedReads(words: seq<nat>)
    requires |words| == 8 && Fit(words, 16)
    ensures ParseIPv6(Shorten(Join(HexGroups(words), ':'))) == Some(words)
  {
    var k := Keep(words);
    StripsZeros(words);
    HexGroupsValues(words);
    if k <= 6 {
      ZerosRead(words, k);
    } else {
      ParseIPv6InvertsFull(words, HexGroups(words));
    }
  }

  // ---- The mask as text -------------------------------------------------------------------------

  function Size(v6: bool): nat { if v6 then 128 else 32 }

  function Width(v6: bool): nat { if v6 then 16 else 8 }

  function Count(v6: bool): nat { if v6 then 8 else 4 }

  function LowByte(w: nat): (b: nat)
    ensures b < 0x100 && b == Low(ToUint32(w), 8)
  {
    Pow2Values();
    AndOnesInt(w, 8, 0xff);
    And(w, 0xff)
  }

  function SplitWords(m: seq<nat>): seq<nat>
    requires |m| == 2
  {
    [UShr(m[0], 8), LowByte(m[0]), UShr(m[1], 8), LowByte(m[1])]
  }

  function TextOf(m: seq<nat>, v6: bool): string
    requires |m| == Size(v6) / 16
  {
    if v6 then Shorten(Join(HexGroups(m), ':')) else Dotted(SplitWords(m))
  }

  function MaskText(bits: int, v6: bool): Option<string> {
    if bits > Size(v6) then None
    else Some(TextOf(MaskWords(bits, Size(v6) / 16), v6))
  }

  method PrefixToMask(bits: int, v6: bool) returns (mask: Option<string>)
    ensures mask == MaskText(bits, v6)
  {
    if bits > Size(v6) { return None; }
    var m := CollectWords(bits, Size(v6) / 16);
    return Some(TextOf(m, v6));
  }

  function Parsed(mask: string, v6: bool): Option<seq<nat>> { if v6 then ParseIPv6(mask) else ParseIPv4(mask) }

  /** The two bytes of one word of a prefix. */
  lemma OnesBytes(w: nat, k: nat)
    requires k <= 16 && w == Ones(16, k)
    ensures UShr(w, 8) == Ones(8, Part(k, 8)) && LowByte(w) == Ones(8, k - Part(k, 8))
  {
    Pow2Values();
    OnesValue(16, k);
    OnesValue(8, Part(k, 8));
    OnesValue(8, k - Part(k, 8));
    if k <= 8 { UpperByte(w, k); } else { BothBytes(w, k); }
    Small(w);
  }

  lemma UpperByte(w: nat, k: nat)
    requires k <= 8 && w == Ones(16, k)
    ensures High(w, 8) == Ones(8, k) && Low(w, 8) == 0
  {
    OnesValue(16, k);
    OnesValue(8, k);
    Pow2Values();
    Pow2Add(8 - k, 8);
    assert 8 - k + 8 == 16 - k;
    HighUnique(w, 8, 0x100 - Pow2(8 - k), 0);
  }

  lemma BothBytes(w: nat, k: nat)
    requires 8 < k <= 16 && w == Ones(16, k)
    ensures High(w, 8) == 0xff && Low(w, 8) == Ones(8, k - 8)
  {
    OnesValue(16, k);
    OnesValue(8, k - 8);
    Pow2Values();
    Pow2Grows(16 - k, 8);
    HighUnique(w, 8, 0xff, 0x100 - Pow2(16 - k));
  }

  lemma PrefixBytes(n: nat, words: seq<nat>, v6: bool)
    requires !v6 && n <= 32 && words == MaskWords(n, Size(v6) / 16)
    ensures SplitWords(words) == PrefixWords(n, Width(v6), Count(v6))
  {
    hide MaskWords, SplitWords, PrefixWords, Ones;
    PrefixBytesOf(n, words, Size(v6) / 16, Width(v6), Count(v6));
  }

  lemma PrefixBytesOf(n: nat, words: seq<nat>, size: nat, width: nat, count: nat)
    requires n <= 32 && size == 2 && width == 8 && count == 4 && words == MaskWords(n, size)
    ensures SplitWords(words) == PrefixWords(n, width, count)
  {
    hide MaskWords, SplitWords, PrefixWords, Ones;
    var a := Part(n, 16);
    TwoWords(n, a, 16, size, words);
    FourBytes(n, a, width, count);
    BytesOfWords(words, a, n - a);
  }

  lemma TwoWords(n: nat, a: nat, width: nat, count: nat, words: seq<nat>)
    requires width == 16 && count == 2 && n <= 32 && a == Part(n, 16) && words == MaskWords(n, count)
    ensures a <= 16 && n - a <= 16 && |words| == 2 && words[0] == Ones(16, a) && words[1] == Ones(16, n - a)
  {
    MaskWordsArePrefix(n, count);
    hide Ones, PrefixWords, MaskWords;
    PrefixWordsAt(n, width, count, 0, 0);
    PrefixWordsAt(n, width, count, 1, 16);
  }

  lemma BytesOfWords(words: seq<nat>, a: nat, b: nat)
    requires |words| == 2 && a <= 16 && b <= 16 && words[0] == Ones(16, a) && words[1] == Ones(16, b)
    ensures SplitWords(words) == [Ones(8, Part(a, 8)), Ones(8, a - Part(a, 8)), Ones(8, Part(b, 8)), Ones(8, b - Part(b, 8))]
  {
    OnesBytes(words[0], a);
    OnesBytes(words[1], b);
  }

  lemma FourBytes(n: nat, a: nat, width: nat, count: nat)
    requires width == 8 && count == 4 && n <= 32 && a == Part(n, 16)
    ensures var b := n - a;
            PrefixWords(n, width, count) ==
            [Ones(width, Part(a, 8)), Ones(width, a - Part(a, 8)), Ones(width, Part(b, 8)), Ones(width, b - Part(b, 8))]
  {
    hide Ones, PrefixWords;
    PrefixWordsAt(n, width, count, 0, 0);
    PrefixWordsAt(n, width, count, 1, 8);
    PrefixWordsAt(n, width, count, 2, 16);
    PrefixWordsAt(n, width, count, 3, 24);
  }

  /** The text of a prefix of n bits is read as the words with n leading ones. */
  lemma MaskTextReads(n: nat, v6: bool)
    requires n <= Size(v6)
    ensures MaskText(n, v6).Some? && Parsed(MaskText(n, v6).value, v6) == Some(PrefixWords(n, Width(v6), Count(v6)))
  {
    if v6 { SixReads(n, v6); } else { FourReads(n, v6); }
  }

  lemma SixReads(n: nat, v6: bool)
    requires v6 && n <= 128
    ensures Parsed(MaskText(n, v6).value, v6) == Some(PrefixWords(n, Width(v6), Count(v6)))
  {
    PrefixWordsFit(n, Width(v6), Count(v6));
    MaskWordsArePrefix(n, Count(v6));
    ShortenedReads(PrefixWords(n, Width(v6), Count(v6)));
  }

  lemma FourReads(n: nat, v6: bool)
    requires !v6 && n <= 32
    ensures Parsed(MaskText(n, v6).value, v6) == Some(PrefixWords(n, Width(v6), Count(v6)))
  {
    PrefixWordsFit(n, Width(v6), Count(v6));
    PrefixBytes(n, MaskWords(n, Size(v6) / 16), v6);
    DottedFits(PrefixWords(n, Width(v6), Count(v6)));
  }

  lemma DottedFits(octets: seq<nat>)
    requires |octets| == 4 && Fit(octets, 8)
    ensures ParseIPv4(Dotted(octets)) == Some(octets)
  {
    Pow2Values();
    DottedReads(octets);
  }

  // ---- From a mask to a prefix ------------------------------------------------------------------

  predicate IsOnes(w: nat, width: nat) { exists k: nat {:trigger Ones(width, k)} :: k <= width && w == Ones(width, k) }

  /** The number of ones in a word. */
  function Weight(w: nat): nat { if w == 0 then 0 else w % 2 + Weight(w / 2) }

  function TotalWeight(words: seq<nat>): nat {
    if words == [] then 0 else TotalWeight(words[..|words| - 1]) + Weight(words[|words| - 1])
  }

  /** Every word is ones and then zeros, and only zeros follow a zero word. */
  predicate Accepted(words: seq<nat>, width: nat) {
    && (forall i :: 0 <= i < |words| ==> IsOnes(words[i], width))
    && forall i, j :: 0 <= i < j < |words| && words[i] == 0 ==> words[j] == 0
  }

  lemma {:induction false} WeightOfOnes(width: nat, k: nat, w: nat)
    requires k <= width && w == Ones(width, k)
    ensures Weight(w) == k
  {
    OnesValue(width, k);
    if width > 0 && k > 0 {
      OnesValue(width - 1, if k < width then k else k - 1);
      if k < width { WeightOfOnes(width - 1, k, w / 2); } else { WeightOfOnes(width - 1, k - 1, w / 2); }
    }
  }

  /** After k shifts the word in hand holds the rest below the k leading ones. */
  ghost predicate AfterShifts(w0: nat, w: nat, width: nat, k: nat) {
    k <= width && w0 >= Ones(width, k) && w0 - Ones(width, k) < Pow2(width - k) &&
    w == (w0 - Ones(width, k)) * Pow2(k)
  }

  lemma ShiftBound(w0: nat, w: nat, width: nat, k: nat)
    requires AfterShifts(w0, w, width, k)
    ensures w < Pow2(width) && (k == width ==> w == 0)
  {
    hide Ones, Pow2;
    BoundOf(w0 - Ones(width, k), w, width, k, width - k);
  }

  lemma BoundOf(d: nat, w: nat, width: nat, k: nat, left: nat)
    requires left + k == width && d < Pow2(left) && w == d * Pow2(k)
    ensures w < Pow2(width) && (left == 0 ==> w == 0)
  {
    assert left == 0 ==> Pow2(left) == 1;
    hide *;
    Pow2Add(left, k);
    BelowProduct(d, Pow2(left), Pow2(k));
    if left == 0 { NothingLeft(d, Pow2(left), Pow2(k)); }
  }

  lemma NothingLeft(x: nat, p: nat, q: nat)
    requires x < p && p == 1
    ensures x * q == 0
  {
  }

  lemma BelowProduct(x: nat, p: nat, q: nat)
    requires x < p && q > 0
    ensures x * q < p * q
  {
    MulOrder(x + 1, p, q);
    assert (x + 1) * q == x * q + q;
  }

  lemma NextShift(w0: nat, w: nat, width: nat, k: nat, top: nat)
    requires k < width && AfterShifts(w0, w, width, k) && top == Pow2(width - 1) && w >= top
    ensures AfterShifts(w0, 2 * (w - top), width, k + 1)
  {
    var rest, half := w0 - Ones(width, k), Pow2(width - k - 1);
    OnesValue(width, k);
    OnesValue(width, k + 1);
    Pow2Add(width - k - 1, k);
    assert top == half * Pow2(k);
    if rest < half { BelowProduct(rest, half, Pow2(k)); }
    Subtract(rest, half, Pow2(k));
  }

  lemma Subtract(x: int, y: int, q: nat)
    ensures 2 * (x * q - y * q) == (x - y) * (2 * q)
  {
  }

  lemma LastShift(w0: nat, w: nat, width: nat, k: nat, top: nat)
    requires width > 0 && AfterShifts(w0, w, width, k) && top == Pow2(width - 1) && w < top
    ensures w == 0 ==> w0 == Ones(width, k)
    ensures w != 0 ==> !IsOnes(w0, width)
  {
    var rest := w0 - Ones(width, k);
    if rest == 0 {
      assert w == 0 * Pow2(k);
    } else {
      BelowProduct(0, rest, Pow2(k));
      ShiftBound(w0, w, width, k);
      var half := Pow2(width - k - 1);
      OnesValue(width, k);
      OnesValue(width, k + 1);
      Pow2Add(width - k - 1, k);
      if rest >= half { MulOrder(half, rest, Pow2(k)); }
      assert Ones(width, k + 1) == Ones(width, k) + half;
      forall j: nat {:trigger Ones(width, j)} | j <= width ensures w0 != Ones(width, j) {
        if j <= k { OnesGrow(width, j, k); } else { OnesGrow(width, k + 1, j); }
      }
    }
  }

  /** One turn of the inner loop, in the source's operators. */
  lemma ShiftTurn(w: nat, width: nat, top: nat, full: nat)
    requires 0 < width <= 16 && top == Pow2(width - 1) && full == Pow2(width) - 1 && w < Pow2(width)
    ensures And(w, top) != 0 <==> w >= top
    ensures w >= top ==> And(Shl(w, 1), full) == 2 * (w - top)
  {
    Pow2Grows(width, 16);
    Pow2Values();
    TopBit(w, width - 1, top);
    if w >= top {
      var double := 2 * w;
      var shifted := Shl(w, 1);
      ShlBits(w, 1, double, shifted);
      AndOnesInt(shifted, width, full);
      HighUnique(double, width, 1, 2 * (w - top));
    }
  }

  lemma TopBit(w: nat, k: nat, top: nat)
    requires k < 16 && top == Pow2(k) && w < 2 * top
    ensures And(w, top) != 0 <==> w >= top
  {
    Pow2Grows(k, 15);
    Pow2Values();
    Small(w);
    Small(top);
    AndBit(w, k, top);
    if w >= top { HighUnique(w, k, 1, w - top); } else { HighUnique(w, k, 0, w); }
  }

  lemma WholeTurn(w0: nat, w: nat, width: nat, k: nat, top: nat, full: nat, shifted: int)
    requires 0 < width <= 16 && top == Pow2(width - 1) && full == Pow2(width) - 1 && AfterShifts(w0, w, width, k)
    requires And(w, top) != 0 && shifted == And(Shl(w, 1), full)
    ensures k < width && shifted >= 0 && AfterShifts(w0, shifted, width, k + 1)
  {
    ShiftBound(w0, w, width, k);
    ShiftTurn(w, width, top, full);
    NextShift(w0, w, width, k, top);
  }

  lemma AfterLoop(w0: nat, w: nat, width: nat, k: nat, top: nat, full: nat)
    requires 0 < width <= 16 && top == Pow2(width - 1) && full == Pow2(width) - 1 && AfterShifts(w0, w, width, k)
    requires And(w, top) == 0
    ensures (w == 0 <==> IsOnes(w0, width)) && (w == 0 ==> Weight(w0) == k)
  {
    ShiftBound(w0, w, width, k);
    ShiftTurn(w, width, top, full);
    LastShift(w0, w, width, k, top);
    if w == 0 { WeightOfOnes(width, k, w0); }
  }

  lemma NoShift(w0: nat, width: nat)
    requires w0 < Pow2(width)
    ensures AfterShifts(w0, w0, width, 0)
  {
  }

  /** The inner loop. */
  method ShiftOnes(w0: nat, width: nat, v6: bool, z: bool, bits0: nat) returns (w: nat, bits: nat)
    requires width == Width(v6) && w0 < Pow2(width)
    ensures z ==> w == w0 && bits == bits0
    ensures !z ==> (w == 0 <==> IsOnes(w0, width)) && (w == 0 ==> bits == bits0 + Weight(w0))
  {
    var top, full := if v6 then 0x8000 else 0x80, if v6 then 0xffff else 0xff;
    assert top == Pow2(width - 1) && full == Pow2(width) - 1 by { Pow2Values(); }
    w, bits := w0, bits0;
    ghost var k := 0;
    NoShift(w0, width);
    while !z && And(w, top) != 0
      invariant z ==> w == w0
      invariant AfterShifts(w0, w, width, k) && bits == bits0 + k && (z ==> k == 0)
      decreases width - k
    {
      var shifted := And(Shl(w, 1), full);
      WholeTurn(w0, w, width, k, top, full, shifted);
      w, bits, k := shifted, bits + 1, k + 1;
    }
    if !z { AfterLoop(w0, w, width, k, top, full); }
  }

  /** The number of bits of a mask, if the loop accepts it. */
  function PrefixOf(mask: string, v6: bool): Option<nat> {
    var m := Parsed(mask, v6);
    if m.Some? && Accepted(m.value, Width(v6)) then Some(TotalWeight(m.value)) else None
  }

  lemma ParsedFits(mask: string, v6: bool)
    ensures Parsed(mask, v6).Some? ==>
              |Parsed(mask, v6).value| == Count(v6) && Fit(Parsed(mask, v6).value, Width(v6))
  {
    Pow2Values();
    var m := Parsed(mask, v6);
    if v6 { ParseIPv6Words(mask); }
    if m.Some? {
      forall i | 0 <= i < |m.value| ensures m.value[i] < Pow2(Width(v6)) { assert m.value[i] in m.value; }
    }
  }

  method MaskToPrefix(mask: string, v6: bool) returns (r: Option<nat>)
    ensures r == PrefixOf(mask, v6)
  {
    var parsed := Parsed(mask, v6);
    if parsed.None? { return None; }
    ParsedFits(mask, v6);
    var m := parsed.value;
    ghost var words := m;
    NothingAccepted(words, Width(v6));
    hide Parsed, Width, IsOnes, Weight, Accepted, TotalWeight, SeenZero;
    var bits: nat, z := 0, false;
    for i := 0 to |m|
      invariant |m| == |words| && (forall j :: i <= j < |m| ==> m[j] == words[j])
      invariant z <==> SeenZero(words, i)
      invariant Accepted(words[..i], Width(v6)) && bits == TotalWeight(words[..i])
    {
      AcceptTurn(words, i, Width(v6));
      z := z || m[i] == 0;
      var w;
      w, bits := ShiftOnes(m[i], Width(v6), v6, z, bits);
      m := m[i := w];
      if m[i] != 0 { return None; }
    }
    assert words[..|m|] == words;
    return Some(bits);
  }

  lemma NothingAccepted(words: seq<nat>, width: nat)
    ensures Accepted(words[..0], width) && TotalWeight(words[..0]) == 0 && !SeenZero(words, 0)
  {
  }

  ghost predicate SeenZero(words: seq<nat>, i: nat)
    requires i <= |words|
  {
    exists j :: 0 <= j < i && words[j] == 0
  }

  lemma AcceptTurn(words: seq<nat>, i: nat, width: nat)
    requires i < |words| && Accepted(words[..i], width)
    ensures SeenZero(words, i + 1) <==> SeenZero(words, i) || words[i] == 0
    ensures SeenZero(words, i) && words[i] != 0 ==> !Accepted(words, width)
    ensures !IsOnes(words[i], width) ==> !Accepted(words, width)
    ensures IsOnes(words[i], width) && (SeenZero(words, i) ==> words[i] == 0) ==> Accepted(words[..i + 1], width)
    ensures IsOnes(0, width) && Weight(0) == 0
    ensures TotalWeight(words[..i + 1]) == TotalWeight(words[..i]) + Weight(words[i])
  {
    var front, next := words[..i], words[..i + 1];
    ZeroWord(width);
    assert next[..|next| - 1] == front && next[i] == words[i];
    if SeenZero(words, i) && words[i] != 0 {
      var j :| 0 <= j < i && words[j] == 0;
      assert !Accepted(words, width);
    }
    if IsOnes(words[i], width) && (SeenZero(words, i) ==> words[i] == 0) {
      forall j | 0 <= j <= i ensures IsOnes(next[j], width) {
        if j < i { assert next[j] == front[j]; }
      }
      forall j, k | 0 <= j < k <= i && next[j] == 0 ensures next[k] == 0 {
        if k < i { assert front[j] == next[j] && front[k] == next[k]; } else { assert words[j] == 0; }
      }
    }
  }

  lemma ZeroWord(width: nat)
    ensures IsOnes(0, width) && Weight(0) == 0
  {
    assert Ones(width, 0) == 0;
  }

  // ---- Both directions --------------------------------------------------------------------------

  lemma {:induction false} TotalFromFront(w: nat, rest: seq<nat>)
    ensures TotalWeight([w] + rest) == Weight(w) + TotalWeight(rest)
  {
    var all := [w] + rest;
    if rest == [] {
      assert all[..|all| - 1] == [];
    } else {
      TotalFromFront(w, rest[..|rest| - 1]);
      assert all[..|all| - 1] == [w] + rest[..|rest| - 1];
    }
  }

  lemma {:induction false} PrefixWordsAccepted(n: nat, width: nat, count: nat, total: nat, words: seq<nat>)
    requires width > 0 && n <= total == width * count && words == PrefixWords(n, width, count)
    ensures Accepted(words, width) && TotalWeight(words) == n
    ensures n == 0 ==> forall i :: 0 <= i < count ==> words[i] == 0
  {
    if count > 0 {
      var k, below, rest := Part(n, width), count - 1, width * (count - 1);
      SmallerTotal(width, count, rest);
      assert words[0] == Ones(width, k) && words[1..] == PrefixWords(n - k, width, below);
      assert words == [words[0]] + words[1..] && n - k <= rest && (k == 0 ==> n == 0) && k <= width;
      hide *;
      PrefixWordsAccepted(n - k, width, below, rest, words[1..]);
      JoinFront(words[0], words[1..], width, k);
    }
  }

  lemma JoinFront(w: nat, rest: seq<nat>, width: nat, k: nat)
    requires k <= width && w == Ones(width, k) && Accepted(rest, width)
    requires k == 0 ==> forall i :: 0 <= i < |rest| ==> rest[i] == 0
    ensures Accepted([w] + rest, width) && TotalWeight([w] + rest) == k + TotalWeight(rest)
    ensures w == 0 <==> k == 0
  {
    WeightOfOnes(width, k, w);
    TotalFromFront(w, rest);
    AcceptedFromFront(w, rest, width);
  }

  lemma AcceptedFromFront(w: nat, rest: seq<nat>, width: nat)
    requires IsOnes(w, width) && Accepted(rest, width)
    requires w == 0 ==> forall i :: 0 <= i < |rest| ==> rest[i] == 0
    ensures Accepted([w] + rest, width)
  {
    var all := [w] + rest;
    forall i | 0 <= i < |all| ensures IsOnes(all[i], width) {
      if i > 0 { assert all[i] == rest[i - 1]; }
    }
    forall i, j | 0 <= i < j < |all| && all[i] == 0 ensures all[j] == 0 {
      assert all[j] == rest[j - 1];
      if i > 0 { assert all[i] == rest[i - 1]; }
    }
  }

  /** A prefix is read back from the text of its mask. */
  lemma PrefixRoundTrip(n: nat, v6: bool)
    requires n <= Size(v6)
    ensures MaskText(n, v6).Some? && PrefixOf(MaskText(n, v6).value, v6) == Some(n)
  {
    MaskTextReads(n, v6);
    PrefixWordsAccepted(n, Width(v6), Count(v6), Size(v6), PrefixWords(n, Width(v6), Count(v6)));
  }

  /** The address as one number. */
  function Number(words: seq<nat>, v6: bool): nat { BigEndian(words, Width(v6)) }

  lemma SameAsPrefix(words: seq<nat>, n: nat, v6: bool)
    requires n <= Size(v6) && |words| == Count(v6) && Fit(words, Width(v6))
    ensures words == PrefixWords(n, Width(v6), Count(v6)) <==> Number(words, v6) == Ones(Size(v6), n)
  {
    PrefixWordsFit(n, Width(v6), Count(v6));
    PrefixWordsAreOnes(n, Width(v6), Count(v6), Size(v6));
    if Number(words, v6) == Ones(Size(v6), n) {
      BigEndianInjective(words, PrefixWords(n, Width(v6), Count(v6)), Width(v6));
    }
  }

  /** The mask made from n is the given mask exactly when that mask is n ones and then zeros as a whole. */
  lemma MaskRoundTrip(mask: string, n: nat, v6: bool)
    requires n <= Size(v6) && Parsed(mask, v6).Some?
    ensures MaskText(n, v6).Some?
    ensures Parsed(MaskText(n, v6).value, v6) == Parsed(mask, v6) <==>
            Number(Parsed(mask, v6).value, v6) == Ones(Size(v6), n)
  {
    ParsedFits(mask, v6);
    MaskTextReads(n, v6);
    SameAsPrefix(Parsed(mask, v6).value, n, v6);
  }

  /** Every contiguous mask is accepted, with the number of its ones. */
  lemma ContiguousAccepted(mask: string, n: nat, v6: bool)
    requires n <= Size(v6) && Parsed(mask, v6).Some?
    requires Number(Parsed(mask, v6).value, v6) == Ones(Size(v6), n)
    ensures PrefixOf(mask, v6) == Some(n)
  {
    ParsedFits(mask, v6);
    SameAsPrefix(Parsed(mask, v6).value, n, v6);
    PrefixWordsAccepted(n, Width(v6), Count(v6), Size(v6), PrefixWords(n, Width(v6), Count(v6)));
  }

  /** Acceptance is weaker: 255.128.128.0 is taken for a prefix of ten bits, whose mask is 255.192.0.0. */
  lemma AcceptsGaps()
    ensures Parsed(Dotted([255, 128, 128, 0]), false) == Some([255, 128, 128, 0])
    ensures PrefixOf(Dotted([255, 128, 128, 0]), false) == Some(10)
    ensures PrefixWords(10, 8, 4) == [255, 192, 0, 0]
  {
    GapMask([255, 128, 128, 0]);
    TenBits(10, 8, 4);
  }

  lemma GapMask(words: seq<nat>)
    requires words == [255, 128, 128, 0]
    ensures ParseIPv4(Dotted(words)) == Some(words) && PrefixOf(Dotted(words), false) == Some(10)
  {
    DottedReads(words);
    GapWords(words, 8);
  }

  lemma GapWords(words: seq<nat>, width: nat)
    requires words == [255, 128, 128, 0] && width == 8
    ensures Accepted(words, width) && TotalWeight(words) == 10
  {
    EightBitOnes(width);
    WeightOfOnes(width, 8, 255);
    WeightOfOnes(width, 1, 128);
    FourWeights(255, 128, 128, 0);
    assert Weight(0) == 0;
  }

  lemma EightBitOnes(width: nat)
    requires width == 8
    ensures Ones(width, 8) == 255 && Ones(width, 2) == 192 && Ones(width, 1) == 128 && Ones(width, 0) == 0
    ensures IsOnes(255, width) && IsOnes(128, width) && IsOnes(0, width)
  {
    Pow2Values();
    assert Pow2(6) == 64;
    OnesValue(width, 8);
    OnesValue(width, 2);
    OnesValue(width, 1);
  }

  lemma TenBits(n: nat, width: nat, count: nat)
    requires n == 10 && width == 8 && count == 4
    ensures PrefixWords(n, width, count) == [255, 192, 0, 0]
  {
    EightBitOnes(width);
    FourBytes(n, 10, width, count);
  }

  lemma FourWeights(a: nat, b: nat, c: nat, d: nat)
    ensures TotalWeight([a, b, c, d]) == Weight(a) + Weight(b) + Weight(c) + Weight(d)
  {
    TotalFromFront(c, [d]);
    TotalFromFront(b, [c, d]);
    TotalFromFront(a, [b, c, d]);
    assert [d][..0] == [];
    assert [a] + [b, c, d] == [a, b, c, d] && [b] + [c, d] == [b, c, d] && [c] + [d] == [c, d];
  }
}
