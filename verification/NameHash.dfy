/**
 * The string hash that makes a generator seed of a name, on 32-bit words.
 *
 * A name is encoded in bytes, mixed in blocks of four with the rest at the end, and printed in eight
 * hexadecimal digits, which are read back as the seed.
 */
module NameHash {
  import opened Common
  import opened IpText
  import Bits

  // ---- Bytes ------------------------------------------------------------------------------------

  /** The characters that are one code unit. */
  predicate IsBasic(s: string) { forall i :: 0 <= i < |s| ==> s[i] as int < 0x10000 }

  /** One code unit in one to three bytes. */
  function UnitBytes(u: bv16): seq<bv8> {
    if u <= 0x7f then [u as bv8]
    else if u <= 0x7ff then [(((u >> 6) & 0x1f) | 0xc0) as bv8, ((u & 0x3f) | 0x80) as bv8]
    else [(((u >> 12) & 0x0f) | 0xe0) as bv8, (((u >> 6) & 0x3f) | 0x80) as bv8, ((u & 0x3f) | 0x80) as bv8]
  }

  function Bytes(s: string): (b: seq<bv8>)
    requires IsBasic(s)
    ensures s != "" ==> b != []
    ensures |b| <= 3 * |s|
  {
    if s == "" then []
    else Bytes(s[..|s| - 1]) + UnitBytes(s[|s| - 1] as int as bv16)
  }

  lemma NoBytes()
    ensures Bytes("") == []
  {
  }

  /** A character below 0x80 is one byte. */
  lemma LastByte(s: string, front: string, c: char, b: bv8)
    requires IsBasic(s) && s == front + [c] && (c as int) < 0x80 && (c as int) as bv8 == b
    ensures IsBasic(front) && Bytes(s) == Bytes(front) + [b]
  {
    assert s[..|s| - 1] == front && s[|s| - 1] == c;
    assert forall i :: 0 <= i < |front| ==> front[i] == s[i];
    OneByte(c as int as bv16, c, b);
    hide UnitBytes;
  }

  lemma ThreeBytes(s: string, c: char, d: char, e: char, x: bv8, y: bv8, z: bv8)
    requires IsBasic(s) && s == [c] + [d] + [e] && (c as int) < 0x80 && (d as int) < 0x80 && (e as int) < 0x80
    requires (c as int) as bv8 == x && (d as int) as bv8 == y && (e as int) as bv8 == z
    ensures Bytes(s) == [x, y, z]
  {
    hide *;
    LastByte(s, [c] + [d], e, z);
    LastByte([c] + [d], [c], d, y);
    assert [c] == "" + [c];
    LastByte([c], "", c, x);
    NoBytes();
  }

  lemma OneByte(u: bv16, c: char, b: bv8)
    requires (c as int) < 0x80 && u == c as int as bv16 && b == (c as int) as bv8
    ensures UnitBytes(u) == [b]
  {
  }

  // ---- Mixing -------------------------------------------------------------------------------------

  function Pair(b0: bv8, b1: bv8): bv32 { ((b1 as bv32) << 8) + b0 as bv32 }

  /** A byte with its sign. */
  function Signed(b: bv8): bv32 { if b > 0x7f then b as bv32 - 256 else b as bv32 }

  function MixFour(h: bv32, b0: bv8, b1: bv8, b2: bv8, b3: bv8): bv32 {
    var h1 := h + Pair(b0, b1);
    var h2 := (h1 << 16) ^ ((Pair(b2, b3) << 11) ^ h1);
    h2 + (h2 >> 11)
  }

  /** The last one to three bytes. */
  function MixRest(h: bv32, b: seq<bv8>): bv32
    requires |b| < 4
  {
    if |b| == 3 then
      var h1 := h + Pair(b[0], b[1]);
      var h2 := (h1 ^ (h1 << 16)) ^ (Signed(b[2]) << 18);
      h2 + (h2 >> 11)
    else if |b| == 2 then
      var h1 := h + Pair(b[0], b[1]);
      var h2 := h1 ^ (h1 << 11);
      h2 + (h2 >> 17)
    else if |b| == 1 then
      var h1 := h + Signed(b[0]);
      var h2 := h1 ^ (h1 << 10);
      h2 + (h2 >> 1)
    else h
  }

  /** All but the last addition. */
  function Stir(h: bv32): bv32 {
    var h1 := h ^ (h << 3);
    var h2 := h1 + (h1 >> 5);
    var h3 := h2 ^ (h2 << 4);
    var h4 := h3 + (h3 >> 17);
    h4 ^ (h4 << 25)
  }

  /** Blocks of four bytes from position i on, then the rest. */
  function MixFrom(h: bv32, b: seq<bv8>, i: nat): bv32
    requires i <= |b|
    decreases |b| - i
  {
    if |b| - i < 4 then MixRest(h, b[i..]) else MixFrom(MixFour(h, b[i], b[i + 1], b[i + 2], b[i + 3]), b, i + 4)
  }

  function LastSum(h: bv32): (n: nat)
    ensures n < 0x2_0000_0000
  {
    h as nat + (h >> 6) as nat
  }

  /** The hash with the last addition made on numbers; it can pass 32 bits. */
  function HashNumber(b: seq<bv8>): (n: nat)
    requires |b| < 0x1_0000_0000
    ensures n < 0x2_0000_0000
  {
    LastSum(Stir(MixFrom(|b| as bv32, b, 0)))
  }

  // ---- Text ---------------------------------------------------------------------------------------

  function Pow16(k: nat): (p: nat)
    ensures p > 0
  {
    if k == 0 then 1 else 16 * Pow16(k - 1)
  }

  /** Without its first digit a number of k + 1 digits is its remainder, in k digits. */
  lemma {:induction false} DropDigit(n: nat, k: nat)
    requires Pow16(k) <= n < 16 * Pow16(k)
    ensures |HexStr(n)| == k + 1 && AllHex(HexStr(n)[1..]) && HexOf(HexStr(n)[1..]) == n % Pow16(k)
  {
    var s := HexStr(n);
    forall c | c in s[1..] ensures IsHex(c) { assert c in s; }
    if k == 0 {
      assert s[1..] == "";
    } else {
      var p, shorter := Pow16(k - 1), HexStr(n / 16);
      DropDigit(n / 16, k - 1);
      assert s == shorter + [HexDigit(n % 16)];
      assert s[1..] == shorter[1..] + [HexDigit(n % 16)];
      assert s[1..][..|s[1..]| - 1] == shorter[1..];
      Remainder(n, p);
    }
  }

  lemma Remainder(n: nat, p: nat)
    requires p > 0
    ensures 16 * ((n / 16) % p) + n % 16 == n % (16 * p)
  {
    var q, r := (n / 16) / p, (n / 16) % p;
    assert n == 16 * (q * p + r) + n % 16;
    assert n == q * (16 * p) + (16 * r + n % 16);
    assert 0 <= 16 * r + n % 16 < 16 * p;
    Bits.DivUnique(n, 16 * p, q, 16 * r + n % 16);
  }

  lemma EightDigits()
    ensures Pow16(8) == 0x1_0000_0000
  {
    assert Pow16(4) == 0x10000;
    assert Pow16(5) == 16 * Pow16(4) && Pow16(6) == 16 * Pow16(5) && Pow16(7) == 16 * Pow16(6) && Pow16(8) == 16 * Pow16(7);
  }

  /** The digits of n after a one in the ninth place. */
  function Marked(n: nat): string { HexStr(0x1_0000_0000 + n)[1..] }

  /** `sfh`: eight digits, or nothing for the empty name. */
  function HashText(s: string): (r: Option<string>)
    requires IsBasic(s) && |s| < 0x4000_0000
  {
    if s == "" then None else Some(Marked(HashNumber(Bytes(s))))
  }

  /** The text has always eight digits, although the last addition can carry: they are the number's lower 32 bits. */
  lemma HashIsEightDigits(s: string)
    requires IsBasic(s) && 0 < |s| < 0x4000_0000
    ensures var text := HashText(s).value;
            |text| == 8 && AllHex(text) && HexOf(text) == HashNumber(Bytes(s)) % 0x1_0000_0000
  {
    hide HashNumber;
    MarkedDigits(HashNumber(Bytes(s)), 0x1_0000_0000 + HashNumber(Bytes(s)));
  }

  lemma MarkedDigits(n: nat, m: nat)
    requires m == 0x1_0000_0000 + n && n < 0x2_0000_0000
    ensures |Marked(n)| == 8 && AllHex(Marked(n)) && HexOf(Marked(n)) == n % 0x1_0000_0000
  {
    hide HexStr, HexOf;
    EightDigits();
    DropDigit(m, 8);
    assert m % 0x1_0000_0000 == n % 0x1_0000_0000;
  }

  /** `parseInt(sfh(name), 16)`; what is not a number seeds the generator like 1. */
  function SeedOf(s: string): (n: nat)
    requires IsBasic(s) && |s| < 0x4000_0000
  {
    if s == "" then 1 else HashNumber(Bytes(s)) % 0x1_0000_0000
  }

  method Encode(s: string) returns (b: seq<bv8>)
    requires IsBasic(s)
    ensures b == Bytes(s)
  {
    b := [];
    for i := 0 to |s|
      invariant b == Bytes(s[..i])
    {
      assert s[..i + 1][..i] == s[..i];
      b := b + UnitBytes(s[i] as int as bv16);
    }
    assert s[..|s|] == s;
  }

  method Hash(s: string) returns (r: Option<string>)
    requires IsBasic(s) && |s| < 0x4000_0000
    ensures r == HashText(s)
  {
    if s == "" { return None; }
    var bytes := Encode(s);
    var hash := Mix(bytes);
    hide MixFrom, Stir, Marked, LastSum;
    r := Some(Marked(LastSum(Stir(hash))));
  }

  method Mix(bytes: seq<bv8>) returns (hash: bv32)
    requires |bytes| < 0x1_0000_0000
    ensures hash == MixFrom(|bytes| as bv32, bytes, 0)
  {
    hide MixFour, MixRest;
    hash := |bytes| as bv32;
    ghost var first := hash;
    var off := 0;
    while |bytes| - off >= 4
      invariant off <= |bytes| && MixFrom(hash, bytes, off) == MixFrom(first, bytes, 0)
    {
      hash := MixFour(hash, bytes[off], bytes[off + 1], bytes[off + 2], bytes[off + 3]);
      off := off + 4;
    }
    hash := MixRest(hash, bytes[off..]);
  }

  /** The seed that the source parses from the text. */
  method Seed(name: string) returns (n: nat)
    requires IsBasic(name) && |name| < 0x4000_0000
    ensures n == SeedOf(name)
  {
    var text := Hash(name);
    if text.None? { return 1; }
    HashIsEightDigits(name);
    n := HexOf(text.value);
  }

  // ---- Hashes of some names -------------------------------------------------------------------------

  /** UTF-8 of one code unit: the marks of the bytes, and the bits of the unit in order. */
  lemma UnitBytesDecode(u: bv16)
    ensures u <= 0x7f ==> UnitBytes(u) == [u as bv8]
    ensures 0x7f < u <= 0x7ff ==> var b := UnitBytes(u); |b| == 2 && IsPair(u, b[0], b[1])
    ensures 0x7ff < u ==> var b := UnitBytes(u); |b| == 3 && IsTriple(u, b[0], b[1], b[2])
  {
    if 0x7f < u <= 0x7ff { PairBits(u, UnitBytes(u)[0], UnitBytes(u)[1]); }
    if 0x7ff < u { TripleBits(u, UnitBytes(u)[0], UnitBytes(u)[1], UnitBytes(u)[2]); }
  }

  predicate IsPair(u: bv16, x: bv8, y: bv8) {
    x & 0xe0 == 0xc0 && y & 0xc0 == 0x80 && (((x & 0x1f) as bv16) << 6) | ((y & 0x3f) as bv16) == u
  }

  predicate IsTriple(u: bv16, x: bv8, y: bv8, z: bv8) {
    && x & 0xf0 == 0xe0 && y & 0xc0 == 0x80 && z & 0xc0 == 0x80
    && (((x & 0xf) as bv16) << 12) | (((y & 0x3f) as bv16) << 6) | ((z & 0x3f) as bv16) == u
  }

  lemma PairBits(u: bv16, x: bv8, y: bv8)
    requires 0x7f < u <= 0x7ff && x == (((u >> 6) & 0x1f) | 0xc0) as bv8 && y == ((u & 0x3f) | 0x80) as bv8
    ensures IsPair(u, x, y)
  {
  }

  lemma TripleBits(u: bv16, x: bv8, y: bv8, z: bv8)
    requires 0x7ff < u && x == (((u >> 12) & 0x0f) | 0xe0) as bv8 && y == (((u >> 6) & 0x3f) | 0x80) as bv8
    requires z == ((u & 0x3f) | 0x80) as bv8
    ensures IsTriple(u, x, y, z)
  {
  }

  lemma HashIs(b: seq<bv8>, mixed: bv32, stirred: bv32, n: nat)
    requires |b| < 0x1_0000_0000 && MixFrom(|b| as bv32, b, 0) == mixed && Stir(mixed) == stirred && LastSum(stirred) == n
    ensures HashNumber(b) == n
  {
  }

  lemma OneByteName(b: seq<bv8>)
    requires b == [0x61]
    ensures HashNumber(b) == 0x115e_a782
  {
    hide HashNumber, LastSum, Stir;
    assert b[0..] == b && MixRest(1, b) == 0x2_4c93;
    StirIsOne(0x2_4c93);
    HashIs(b, 0x2_4c93, 0x111a_3e88, 0x115e_a782);
  }

  lemma StirIsOne(h: bv32)
    requires h == 0x2_4c93
    ensures Stir(h) == 0x111a_3e88 && LastSum(0x111a_3e88) == 0x115e_a782
  {
  }

  lemma TwoByteName(b: seq<bv8>)
    requires b == [0x61, 0x62]
    ensures HashNumber(b) == 0x516b_8b44
  {
    hide HashNumber, LastSum, Stir;
    assert b[0..] == b && MixRest(2, b) == 0x313_7bec;
    StirIsTwo(0x313_7bec);
    HashIs(b, 0x313_7bec, 0x502a_dfc5, 0x516b_8b44);
  }

  lemma StirIsTwo(h: bv32)
    requires h == 0x313_7bec
    ensures Stir(h) == 0x502a_dfc5 && LastSum(0x502a_dfc5) == 0x516b_8b44
  {
  }

  lemma ThreeByteName(b: seq<bv8>)
    requires b == [0x61, 0xc3, 0xa9]
    ensures HashNumber(b) == 0xe3d9_c55b
  {
    hide HashNumber, LastSum, Stir;
    assert b[0..] == b && MixRest(3, b) == 0x3dc8_7b7c;
    StirIsThree(0x3dc8_7b7c);
    HashIs(b, 0x3dc8_7b7c, 0xe058_63cc, 0xe3d9_c55b);
  }

  lemma StirIsThree(h: bv32)
    requires h == 0x3dc8_7b7c
    ensures Stir(h) == 0xe058_63cc && LastSum(0xe058_63cc) == 0xe3d9_c55b
  {
  }

  lemma FourByteName(b: seq<bv8>)
    requires b == [0x61, 0x62, 0x63, 0x64]
    ensures HashNumber(b) == 0xdad8_b8db
  {
    hide HashNumber, LastSum, Stir;
    assert MixFour(4, b[0], b[1], b[2], b[3]) == 0x6152_a334;
    assert b[4..] == [];
    StirIsFour(0x6152_a334);
    HashIs(b, 0x6152_a334, 0xd77a_cda5, 0xdad8_b8db);
  }

  lemma StirIsFour(h: bv32)
    requires h == 0x6152_a334
    ensures Stir(h) == 0xd77a_cda5 && LastSum(0xd77a_cda5) == 0xdad8_b8db
  {
  }

  /** The hashes of "a", "ab", "a\u{e9}" and "abcd", for each number of bytes in the last block. */
  lemma KnownHashes()
    ensures HashNumber([0x61]) == 0x115e_a782
    ensures HashNumber([0x61, 0x62]) == 0x516b_8b44
    ensures HashNumber([0x61, 0xc3, 0xa9]) == 0xe3d9_c55b
    ensures HashNumber([0x61, 0x62, 0x63, 0x64]) == 0xdad8_b8db
  {
    hide *;
    OneByteName([0x61]);
    TwoByteName([0x61, 0x62]);
    ThreeByteName([0x61, 0xc3, 0xa9]);
    FourByteName([0x61, 0x62, 0x63, 0x64]);
  }
}
