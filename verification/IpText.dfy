/**
 * IPv4 and IPv6 addresses as text: the parsers, and the printings they undo
 * (for IPv6 the forms of section 2.2 of RFC 4291).
 */
module IpText {
  import opened Common
  import opened Strings

  // ---- Splitting at "::" ----------------------------------------------------------------------

  /** Splitting at each "::", from the left. */
  function SplitDouble(s: string): (parts: seq<string>)
    ensures parts != []
  {
    if s == "" then [""]
    else if |s| >= 2 && s[0] == ':' && s[1] == ':' then [""] + SplitDouble(s[2..])
    else var rest := SplitDouble(s[1..]); [[s[0]] + rest[0]] + rest[1..]
  }

  predicate NoDouble(s: string) { forall i :: 0 <= i < |s| - 1 ==> s[i] != ':' || s[i + 1] != ':' }

  lemma {:induction false} SplitDoubleHead(a: string, b: string)
    requires NoDouble(a) && (a != "" ==> a[|a| - 1] != ':')
    ensures SplitDouble(a + "::" + b) == [a] + SplitDouble(b)
    ensures SplitDouble(a) == [a]
  {
    if a == "" {
      assert ("" + "::" + b)[2..] == b;
    } else {
      assert (a + "::" + b)[1..] == a[1..] + "::" + b;
      SplitDoubleHead(a[1..], b);
      assert [a[0]] + a[1..] == a;
    }
  }

  // ---- IPv4 -----------------------------------------------------------------------------------

  predicate IsQuadPart(p: string) { 1 <= |p| <= 3 && AllDigits(p) }

  /** Four groups of one to three digits. */
  predicate IsQuad(s: string) {
    |Split(s, '.')| == 4 && forall p :: p in Split(s, '.') ==> IsQuadPart(p)
  }

  function ParseIPv4(x: string): (r: Option<seq<nat>>)
    ensures r.Some? ==> |r.value| == 4 && forall w :: w in r.value ==> w <= 255
  {
    var p := Split(x, '.');
    if !IsQuad(x) then None
    else
      assert p[0] in p && p[1] in p && p[2] in p && p[3] in p;
      var v := [NatOf(p[0]), NatOf(p[1]), NatOf(p[2]), NatOf(p[3])];
      if v[0] > 255 || v[1] > 255 || v[2] > 255 || v[3] > 255 then None else Some(v)
  }

  /** The text of one address byte, leading zeros allowed. */
  predicate IsOctet(p: string) { IsQuadPart(p) && NatOf(p) <= 255 }

  lemma ParseIPv4Inverts(p: seq<string>)
    requires |p| == 4 && IsOctet(p[0]) && IsOctet(p[1]) && IsOctet(p[2]) && IsOctet(p[3])
    ensures IsQuad(Join(p, '.'))
    ensures ParseIPv4(Join(p, '.')) == Some([NatOf(p[0]), NatOf(p[1]), NatOf(p[2]), NatOf(p[3])])
  {
    SplitJoin(p, '.');
    hide Split, NatOf, Join;
    FourParts(Join(p, '.'), p);
  }

  lemma FourParts(x: string, p: seq<string>)
    requires Split(x, '.') == p && |p| == 4 && IsOctet(p[0]) && IsOctet(p[1]) && IsOctet(p[2]) && IsOctet(p[3])
    ensures IsQuad(x) && ParseIPv4(x) == Some([NatOf(p[0]), NatOf(p[1]), NatOf(p[2]), NatOf(p[3])])
  {
    hide Split, NatOf;
    forall g | g in p ensures IsQuadPart(g) {
      var i :| 0 <= i < 4 && p[i] == g;
    }
  }

  // ---- Hexadecimal groups ---------------------------------------------------------------------

  predicate IsHex(c: char) { IsDigit(c) || 'a' <= c <= 'f' || 'A' <= c <= 'F' }

  function HexValue(c: char): (v: nat)
    requires IsHex(c)
    ensures v < 16
  {
    if IsDigit(c) then c as int - '0' as int
    else if 'a' <= c <= 'f' then c as int - 'a' as int + 10
    else c as int - 'A' as int + 10
  }

  predicate AllHex(s: string) { forall c :: c in s ==> IsHex(c) }

  function HexOf(s: string): nat
    requires AllHex(s)
  {
    if s == "" then 0
    else
      assert s[|s| - 1] in s && forall c :: c in s[..|s| - 1] ==> c in s;
      16 * HexOf(s[..|s| - 1]) + HexValue(s[|s| - 1])
  }

  function HexDigit(v: nat): (c: char)
    requires v < 16
    ensures IsHex(c) && HexValue(c) == v
  {
    if v < 10 then '0' + v as char else 'a' + (v - 10) as char
  }

  lemma HexTexts(v: nat)
    requires v < 16
    ensures HexDigit(v) == "0123456789abcdef"[v] && IsHex("0123456789ABCDEF"[v]) && HexValue("0123456789ABCDEF"[v]) == v
  {
    if v < 10 {
      assert "0123456789abcdef"[v] as int == '0' as int + v && "0123456789ABCDEF"[v] as int == '0' as int + v;
    } else {
      assert "0123456789abcdef"[v] as int == 'a' as int + (v - 10) && "0123456789ABCDEF"[v] as int == 'A' as int + (v - 10);
    }
  }

  /** `toString(16)`. */
  function HexStr(n: nat): (s: string)
    ensures s != "" && AllHex(s) && HexOf(s) == n
    ensures n < 0x10000 <==> |s| <= 4
    ensures n < 0x1000 <==> |s| <= 3
    ensures n < 0x100 <==> |s| <= 2
    ensures n < 0x10 <==> |s| <= 1
  {
    if n < 16 then
      var s := [HexDigit(n)];
      assert s[..|s| - 1] == "";
      s
    else
      var s := HexStr(n / 16) + [HexDigit(n % 16)];
      assert s[..|s| - 1] == HexStr(n / 16);
      s
  }

  lemma {:induction false} LeadingZero(s: string)
    requires AllHex(s)
    ensures AllHex("0" + s) && HexOf("0" + s) == HexOf(s)
  {
    var t := "0" + s;
    forall c | c in t ensures IsHex(c) { assert c == '0' || c in s; }
    if s == "" {
      assert t[..|t| - 1] == "";
    } else {
      assert forall c :: c in s[..|s| - 1] ==> c in s;
      LeadingZero(s[..|s| - 1]);
      assert t[..|t| - 1] == "0" + s[..|s| - 1];
    }
  }

  predicate IsGroup(g: string) { 1 <= |g| <= 4 && AllHex(g) }

  lemma {:induction false} HexBound(s: string)
    requires AllHex(s)
    ensures |s| == 0 ==> HexOf(s) == 0
    ensures |s| == 1 ==> HexOf(s) < 0x10
    ensures |s| == 2 ==> HexOf(s) < 0x100
    ensures |s| == 3 ==> HexOf(s) < 0x1000
    ensures |s| == 4 ==> HexOf(s) < 0x10000
  {
    if s != "" {
      assert s[|s| - 1] in s && forall c :: c in s[..|s| - 1] ==> c in s;
      HexBound(s[..|s| - 1]);
    }
  }

  // ---- IPv6 -----------------------------------------------------------------------------------

  predicate IsHexOrColon(c: char) { IsHex(c) || c == ':' }

  /** The position of the last colon, or -1. */
  function LastColon(s: string): (k: int)
    ensures -1 <= k < |s| && (k >= 0 ==> s[k] == ':') && forall i :: k < i < |s| ==> s[i] != ':'
  {
    if s == "" then -1 else if s[|s| - 1] == ':' then |s| - 1 else LastColon(s[..|s| - 1])
  }

  /** Replaces a dotted IPv4 tail by two groups; a tail that is no IPv4 address makes the whole text invalid. */
  function WithoutIPv4Tail(x: string): Option<string> {
    var k := LastColon(x);
    if k > 0 && (forall c :: c in x[..k] ==> IsHexOrColon(c)) && IsQuad(x[k + 1..]) then
      var v4 := ParseIPv4(x[k + 1..]);
      if v4.None? then None
      else Some(x[..k] + ":" + HexStr(v4.value[0] * 256 + v4.value[1]) + ":" + HexStr(v4.value[2] * 256 + v4.value[3]))
    else Some(x)
  }

  /** The words of a list of groups, if all of them are words. */
  function Words(groups: seq<string>): (r: Option<seq<nat>>)
    ensures r.Some? ==> |r.value| == |groups|
  {
    if groups == [] then Some([])
    else if !IsGroup(groups[0]) then None
    else
      var rest := Words(groups[1..]);
      if rest.None? then None else Some([HexOf(groups[0])] + rest.value)
  }

  /** Eight words: a, then zeros, then b. */
  function Fill(a: seq<nat>, b: seq<nat>): (w: seq<nat>)
    requires |a| + |b| <= 8
    ensures |w| == 8
  {
    seq(8, i requires 0 <= i < 8 => if i < |a| then a[i] else if i < 8 - |b| then 0 else b[i - (8 - |b|)])
  }

  function OrZero(s: string): string { if s == "" then "0" else s }

  function HalfGroups(half: string): seq<string> { Split(OrZero(half), ':') }

  /** Eight words from the groups before and after the "::"; without one, exactly eight groups. */
  function Assemble(prefix: seq<string>, suffix: seq<string>): Option<seq<nat>> {
    if (if suffix != [] then |prefix| + |suffix| > 7 else |prefix| != 8) then None
    else
      var p, s := Words(prefix), Words(suffix);
      if p.None? || s.None? then None else Some(Fill(p.value, s.value))
  }

  predicate AddressChars(x: string) { x != "" && forall c :: c in x ==> IsHexOrColon(c) }

  function ParseGroups(x: string): Option<seq<nat>> {
    var halves := SplitDouble(x);
    if !AddressChars(x) || |halves| > 2 then None
    else Assemble(HalfGroups(halves[0]), if |halves| > 1 then HalfGroups(halves[1]) else [])
  }

  function ParseIPv6(x: string): Option<seq<nat>> {
    var y := WithoutIPv4Tail(x);
    if y.None? then None else ParseGroups(y.value)
  }

  lemma {:induction false} WordsLength(groups: seq<string>)
    ensures Words(groups).Some? ==> forall w :: w in Words(groups).value ==> w <= 0xFFFF
  {
    if groups != [] {
      WordsLength(groups[1..]);
      if IsGroup(groups[0]) { HexBound(groups[0]); }
    }
  }

  /** Whatever is accepted has eight words of sixteen bits. */
  lemma ParseIPv6Words(x: string)
    ensures var r := ParseIPv6(x); r.Some? ==> |r.value| == 8 && forall w :: w in r.value ==> w <= 0xFFFF
  {
    var y := WithoutIPv4Tail(x);
    if y.Some? {
      var halves := SplitDouble(y.value);
      var prefix, suffix := HalfGroups(halves[0]), if |halves| > 1 then HalfGroups(halves[1]) else [];
      WordsLength(prefix);
      WordsLength(suffix);
      if Assemble(prefix, suffix).Some? { FillBounded(Words(prefix).value, Words(suffix).value); }
    }
  }

  lemma FillBounded(a: seq<nat>, b: seq<nat>)
    requires |a| + |b| <= 8 && (forall w :: w in a ==> w <= 0xFFFF) && forall w :: w in b ==> w <= 0xFFFF
    ensures forall w :: w in Fill(a, b) ==> w <= 0xFFFF
  {
    var f := Fill(a, b);
    forall i | 0 <= i < 8 ensures f[i] <= 0xFFFF {
      if i < |a| {
        assert f[i] == a[i] && a[i] in a;
      } else if i >= 8 - |b| {
        assert f[i] == b[i - (8 - |b|)] && b[i - (8 - |b|)] in b;
      }
    }
  }

  // ---- Printings ------------------------------------------------------------------------------

  predicate AllGroups(groups: seq<string>) { forall g :: g in groups ==> IsGroup(g) }

  function Values(groups: seq<string>): (v: seq<nat>)
    requires AllGroups(groups)
    ensures |v| == |groups|
  {
    if groups == [] then [] else assert groups[0] in groups; [HexOf(groups[0])] + Values(groups[1..])
  }

  lemma {:induction false} WordsOfGroups(groups: seq<string>)
    requires AllGroups(groups)
    ensures Words(groups) == Some(Values(groups))
  {
    if groups != [] {
      assert groups[0] in groups;
      WordsOfGroups(groups[1..]);
    }
  }

  /** Hexadecimal digits and single colons, with no colon at either end. */
  ghost predicate Inner(t: string) {
    (forall c :: c in t ==> IsHexOrColon(c)) && NoDouble(t) && (t != "" ==> t[0] != ':' && t[|t| - 1] != ':')
  }

  lemma GroupIsInner(g: string)
    requires IsGroup(g)
    ensures Inner(g)
  {
    assert !IsHex(':') && forall i :: 0 <= i < |g| ==> g[i] in g;
  }

  lemma InnerPair(a: string, b: string)
    requires Inner(a) && Inner(b) && a != "" && b != ""
    ensures Inner(a + ":" + b)
  {
    var t := a + ":" + b;
    forall i | 0 <= i < |t| - 1 ensures t[i] != ':' || t[i + 1] != ':' {
      assert t[i] == if i < |a| then a[i] else if i == |a| then ':' else b[i - |a| - 1];
      assert t[i + 1] == if i + 1 < |a| then a[i + 1] else if i + 1 == |a| then ':' else b[i - |a|];
    }
  }

  lemma {:induction false} JoinedGroups(groups: seq<string>)
    requires AllGroups(groups)
    ensures Inner(Join(groups, ':')) && (groups == [] <==> Join(groups, ':') == "")
  {
    if groups != [] {
      assert groups[0] in groups;
      GroupIsInner(groups[0]);
      JoinedGroups(groups[1..]);
      if |groups| > 1 { InnerPair(groups[0], Join(groups[1..], ':')); }
    }
  }

  lemma SplitGroups(groups: seq<string>)
    requires AllGroups(groups) && groups != []
    ensures HalfGroups(Join(groups, ':')) == groups
  {
    JoinedGroups(groups);
    forall g | g in groups ensures ':' !in g { assert IsGroup(g) && !IsHex(':'); }
    SplitJoin(groups, ':');
  }

  /** The full form: eight groups. */
  lemma FullForm(groups: seq<string>)
    requires AllGroups(groups) && |groups| == 8
    ensures ParseGroups(Join(groups, ':')) == Some(Values(groups))
  {
    JoinedGroups(groups);
    SplitDoubleHead(Join(groups, ':'), "");
    SplitGroups(groups);
    AssembleFull(groups);
  }

  lemma AssembleFull(groups: seq<string>)
    requires AllGroups(groups) && |groups| == 8
    ensures Assemble(groups, []) == Some(Values(groups))
  {
    WordsOfGroups(groups);
    assert Words([]) == Some([]);
    assert Fill(Values(groups), []) == Values(groups);
  }

  /** A side of the "::" that is left empty is read as one zero group. */
  function Half(groups: seq<string>): seq<string> { if groups == [] then ["0"] else groups }

  predicate Compressible(p: seq<string>, s: seq<string>) { |Half(p)| + |Half(s)| <= 7 }

  lemma ZeroGroup()
    ensures Words(["0"]) == Some([0])
  {
    var g := "0";
    assert IsGroup(g) && g[..|g| - 1] == "";
    assert ["0"][1..] == [] && [0] + [] == [0];
  }

  lemma HalfWords(groups: seq<string>)
    requires AllGroups(groups)
    ensures HalfGroups(Join(groups, ':')) == Half(groups)
    ensures Words(Half(groups)) == Some(if groups == [] then [0] else Values(groups))
  {
    if groups == [] {
      SplitHead("0", ':', "");
      ZeroGroup();
    } else {
      SplitGroups(groups);
      WordsOfGroups(groups);
    }
  }

  lemma SplitHalves(a: string, b: string, x: string)
    requires Inner(a) && Inner(b) && x == a + "::" + b
    ensures SplitDouble(x) == [a, b] && AddressChars(x)
  {
    SplitDoubleHead(a, b);
    SplitDoubleHead(b, "");
    forall c | c in x ensures IsHexOrColon(c) { assert c in a || c == ':' || c in b; }
  }

  lemma GroupsOfHalves(x: string, a: string, b: string)
    requires SplitDouble(x) == [a, b] && AddressChars(x)
    ensures ParseGroups(x) == Assemble(HalfGroups(a), HalfGroups(b))
  {
    hide SplitDouble, HalfGroups, Assemble;
    assert [a, b][0] == a && [a, b][1] == b;
  }

  /** The compressed form: "::" stands for an inner run of zeros, or for an outer run of at least two. */
  lemma CompressedForm(p: seq<string>, s: seq<string>)
    requires AllGroups(p) && AllGroups(s) && Compressible(p, s)
    ensures ParseGroups(Join(p, ':') + "::" + Join(s, ':')) == Some(Fill(Values(p), Values(s)))
  {
    hide Join, SplitDouble, HalfGroups, Words, Values, Fill, Assemble, ParseGroups, Inner, Half, AllGroups;
    var a, b := Join(p, ':'), Join(s, ':');
    JoinedGroups(p);
    JoinedGroups(s);
    SplitHalves(a, b, a + "::" + b);
    GroupsOfHalves(a + "::" + b, a, b);
    HalfWords(p);
    HalfWords(s);
    AssembleHalves(p, s);
  }

  lemma AssembleHalves(p: seq<string>, s: seq<string>)
    requires AllGroups(p) && AllGroups(s) && Compressible(p, s)
    ensures Assemble(Half(p), Half(s)) == Some(Fill(Values(p), Values(s)))
  {
    HalfWords(p);
    HalfWords(s);
    FillZero(Values(p), Values(s));
  }

  lemma FillZero(a: seq<nat>, b: seq<nat>)
    requires (if a == [] then 1 else |a|) + (if b == [] then 1 else |b|) <= 7
    ensures Fill(if a == [] then [0] else a, if b == [] then [0] else b) == Fill(a, b)
  {
  }

  lemma NoIPv4Tail(x: string)
    requires forall c :: c in x ==> IsHexOrColon(c)
    ensures ParseIPv6(x) == ParseGroups(x)
  {
    var k := LastColon(x);
    if k > 0 {
      assert forall c :: c in x[k + 1..] ==> c in x;
      assert '.' !in x[k + 1..] by { assert !IsHexOrColon('.'); }
      SplitParts(x[k + 1..], '.');
    }
  }

  /**
   * Eight words are read back from their full printing.  Groups may be in upper or lower case and may have
   * leading zeros.
   */
  lemma ParseIPv6InvertsFull(words: seq<nat>, groups: seq<string>)
    requires |words| == 8 && AllGroups(groups) && Values(groups) == words
    ensures ParseIPv6(Join(groups, ':')) == Some(words)
  {
    JoinedGroups(groups);
    NoIPv4Tail(Join(groups, ':'));
    FullForm(groups);
  }

  /**
   * Eight words are read back from every printing in which "::" stands for a run of zero words that is
   * inside, or is at an end and at least two words long.
   */
  lemma ParseIPv6InvertsCompressed(words: seq<nat>, p: seq<string>, s: seq<string>, i: nat, j: nat)
    requires |words| == 8 && i < j <= 8 && AllGroups(p) && AllGroups(s)
    requires Values(p) == words[..i] && Values(s) == words[j..] && forall k :: i <= k < j ==> words[k] == 0
    requires i == 0 || j == 8 ==> j - i >= 2
    ensures ParseIPv6(Join(p, ':') + "::" + Join(s, ':')) == Some(words)
  {
    CompressedText(p, s);
    FillZeros(words, i, j);
  }

  lemma FillZeros(words: seq<nat>, i: nat, j: nat)
    requires |words| == 8 && i < j <= 8 && forall k :: i <= k < j ==> words[k] == 0
    ensures Fill(words[..i], words[j..]) == words
  {
    var filled := Fill(words[..i], words[j..]);
    forall k | 0 <= k < 8 ensures filled[k] == words[k] {
    }
  }

  lemma CompressedText(p: seq<string>, s: seq<string>)
    requires AllGroups(p) && AllGroups(s) && Compressible(p, s)
    ensures ParseIPv6(Join(p, ':') + "::" + Join(s, ':')) == Some(Fill(Values(p), Values(s)))
  {
    JoinedGroups(p);
    JoinedGroups(s);
    NoIPv4Tail(Join(p, ':') + "::" + Join(s, ':'));
    CompressedForm(p, s);
  }

  lemma {:induction false} LastColonAt(a: string, b: string)
    requires forall i :: 0 <= i < |b| ==> b[i] != ':'
    ensures LastColon(a + ":" + b) == |a|
  {
    if b != "" {
      assert (a + ":" + b)[..|a + ":" + b| - 1] == a + ":" + b[..|b| - 1];
      LastColonAt(a, b[..|b| - 1]);
    }
  }

  lemma QuadChars(quad: string)
    requires IsQuad(quad)
    ensures forall i :: 0 <= i < |quad| ==> quad[i] != ':'
  {
    SplitParts(quad, '.');
    forall i | 0 <= i < |quad| ensures quad[i] != ':' {
      assert quad[i] in quad;
      if quad[i] != '.' {
        var p :| p in Split(quad, '.') && quad[i] in p;
        assert IsQuadPart(p);
      }
    }
  }

  /** A dotted tail stands for the two groups of its high and its low half. */
  lemma {:induction false} DottedTail(front: string, quad: string)
    requires front != "" && (forall c :: c in front ==> IsHexOrColon(c)) && ParseIPv4(quad).Some?
    ensures var v := ParseIPv4(quad).value;
            ParseIPv6(front + ":" + quad) ==
            ParseIPv6(front + ":" + HexStr(v[0] * 256 + v[1]) + ":" + HexStr(v[2] * 256 + v[3]))
  {
    hide *;
    var v := ParseIPv4(quad).value;
    TailMeaning(front, quad, v, HexStr(v[0] * 256 + v[1]), HexStr(v[2] * 256 + v[3]));
  }

  lemma {:induction false} TailMeaning(front: string, quad: string, v: seq<nat>, hi: string, lo: string)
    requires front != "" && (forall c :: c in front ==> IsHexOrColon(c))
    requires ParseIPv4(quad) == Some(v) && hi == HexStr(v[0] * 256 + v[1]) && lo == HexStr(v[2] * 256 + v[3])
    ensures ParseIPv6(front + ":" + quad) == ParseIPv6(front + ":" + hi + ":" + lo)
  {
    hide *;
    TailReplaced(front, quad, front + ":" + quad, v, hi, lo);
    HexChars(front, hi, lo);
    SameParse(front + ":" + quad, front + ":" + hi + ":" + lo);
  }

  lemma SameParse(x: string, y: string)
    requires WithoutIPv4Tail(x) == Some(y) && forall c :: c in y ==> IsHexOrColon(c)
    ensures ParseIPv6(x) == ParseIPv6(y)
  {
    hide WithoutIPv4Tail, ParseGroups;
    NoIPv4Tail(y);
  }

  lemma TailReplaced(front: string, quad: string, x: string, v: seq<nat>, hi: string, lo: string)
    requires front != "" && (forall c :: c in front ==> IsHexOrColon(c)) && x == front + ":" + quad
    requires ParseIPv4(quad) == Some(v) && hi == HexStr(v[0] * 256 + v[1]) && lo == HexStr(v[2] * 256 + v[3])
    ensures WithoutIPv4Tail(x) == Some(front + ":" + hi + ":" + lo)
  {
    assert IsQuad(quad);
    hide ParseIPv4, HexStr, IsQuad, LastColon;
    QuadChars(quad);
    LastColonAt(front, quad);
    CutAtColon(front, quad);
  }

  lemma CutAtColon(a: string, b: string)
    ensures (a + ":" + b)[..|a|] == a && (a + ":" + b)[|a| + 1..] == b
  {
  }

  lemma HexChars(front: string, hi: string, lo: string)
    requires (forall c :: c in front ==> IsHexOrColon(c)) && AllHex(hi) && AllHex(lo)
    ensures forall c :: c in front + ":" + hi + ":" + lo ==> IsHexOrColon(c)
  {
    forall c | c in front + ":" + hi + ":" + lo ensures IsHexOrColon(c) {
      assert c in front || c == ':' || c in hi || c in lo;
    }
  }

  // ---- The parser as a loop ---------------------------------------------------------------------

  method AppendWords(words0: seq<nat>, groups: seq<string>) returns (words: seq<nat>, ok: bool)
    ensures ok <==> Words(groups).Some?
    ensures ok ==> words == words0 + Words(groups).value
  {
    words := words0;
    assert groups[0..] == groups;
    for i := 0 to |groups|
      invariant Words(groups).Some? <==> Words(groups[i..]).Some?
      invariant Words(groups).Some? ==> words + Words(groups[i..]).value == words0 + Words(groups).value
    {
      assert groups[i..][1..] == groups[i + 1..];
      if !IsGroup(groups[i]) { return words, false; }
      words := words + [HexOf(groups[i])];
    }
    return words, true;
  }

  method ParseAddress(x: string) returns (r: Option<seq<nat>>)
    ensures r == ParseIPv6(x)
  {
    var y := WithoutIPv4Tail(x);
    if y.None? { return None; }
    if !AddressChars(y.value) { return None; }
    var halves := SplitDouble(y.value);
    if |halves| > 2 { return None; }
    r := AssembleWords(HalfGroups(halves[0]), if |halves| > 1 then HalfGroups(halves[1]) else []);
  }

  method AssembleWords(prefix: seq<string>, suffix: seq<string>) returns (r: Option<seq<nat>>)
    requires prefix != []
    ensures r == Assemble(prefix, suffix)
  {
    if |suffix| > 0 {
      if |prefix| + |suffix| > 7 { return None; }
    } else if |prefix| < 8 || |prefix| > 8 {
      return None;
    }
    var words, ok := AppendWords([], prefix);
    if !ok { return None; }
    assert words == Words(prefix).value;
    for i := 0 to 8 - |prefix| - |suffix|
      invariant |words| == |prefix| + i && words[..|prefix|] == Words(prefix).value
      invariant forall k :: |prefix| <= k < |words| ==> words[k] == 0
    {
      words := words + [0];
    }
    ghost var filled := words;
    words, ok := AppendWords(words, suffix);
    if !ok { return None; }
    assert words == Fill(Words(prefix).value, Words(suffix).value) by {
      assert forall k :: 0 <= k < |prefix| ==> filled[k] == filled[..|prefix|][k];
    }
    return Some(words);
  }
}
