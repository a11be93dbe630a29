/**
 * Which texts are addresses: the IPv4 and IPv6 parsers accept exactly these forms, and with exactly these
 * numbers.
 */
module IpForms {
  import opened Common
  import opened Strings
  import opened IpText

  // ---- IPv4 -------------------------------------------------------------------------------------

  /** Four numbers up to 255 in one to three digits each, with points between them. */
  ghost predicate IsDotted(x: string, p: seq<string>, v: seq<nat>) {
    && |p| == |v| == 4 && x == Join(p, '.')
    && forall i :: 0 <= i < 4 ==> 1 <= |p[i]| <= 3 && AllDigits(p[i]) && NatOf(p[i]) == v[i] <= 255
  }

  lemma AcceptsIPv4(x: string, v: seq<nat>)
    ensures ParseIPv4(x) == Some(v) <==> exists p :: IsDotted(x, p, v)
  {
    if ParseIPv4(x) == Some(v) {
      var p := Split(x, '.');
      JoinSplit(x, '.');
      hide Split, Join, NatOf;
      assert forall i :: 0 <= i < 4 ==> p[i] in p && IsQuadPart(p[i]);
      assert IsDotted(x, p, v);
    }
    if p :| IsDotted(x, p, v) {
      assert IsOctet(p[0]) && IsOctet(p[1]) && IsOctet(p[2]) && IsOctet(p[3]);
      ParseIPv4Inverts(p);
      assert [NatOf(p[0]), NatOf(p[1]), NatOf(p[2]), NatOf(p[3])] == v;
    }
  }

  // ---- IPv6 without a dotted tail ------------------------------------------------------------------

  /** Eight groups. */
  ghost predicate IsFull(x: string, p: seq<string>, w: seq<nat>) {
    AllGroups(p) && |p| == 8 && x == Join(p, ':') && w == Values(p)
  }

  /** Groups before and after the only "::", which stands for the zero words between them. */
  ghost predicate IsCompressed(x: string, p: seq<string>, s: seq<string>, w: seq<nat>) {
    && AllGroups(p) && AllGroups(s) && (if p == [] then 1 else |p|) + (if s == [] then 1 else |s|) <= 7
    && x == Join(p, ':') + "::" + Join(s, ':')
    && |w| == 8 && w[..|p|] == Values(p) && w[8 - |s|..] == Values(s) && forall i :: |p| <= i < 8 - |s| ==> w[i] == 0
  }

  ghost predicate IsGroups(x: string, w: seq<nat>) {
    (exists p :: IsFull(x, p, w)) || exists p, s :: IsCompressed(x, p, s, w)
  }

  function JoinDouble(parts: seq<string>): string {
    if parts == [] then "" else if |parts| == 1 then parts[0] else parts[0] + "::" + JoinDouble(parts[1..])
  }

  lemma {:induction false} JoinsSplitDouble(s: string)
    ensures JoinDouble(SplitDouble(s)) == s
  {
    if s == "" {
    } else if |s| >= 2 && s[0] == ':' && s[1] == ':' {
      JoinsSplitDouble(s[2..]);
      assert ([""] + SplitDouble(s[2..]))[1..] == SplitDouble(s[2..]);
      assert s == "::" + s[2..];
    } else {
      var rest := SplitDouble(s[1..]);
      JoinsSplitDouble(s[1..]);
      LongerHead(s[0], rest);
      assert [s[0]] + s[1..] == s;
    }
  }

  lemma LongerHead(c: char, rest: seq<string>)
    requires rest != []
    ensures JoinDouble([[c] + rest[0]] + rest[1..]) == [c] + JoinDouble(rest)
  {
    var parts := [[c] + rest[0]] + rest[1..];
    if |rest| > 1 {
      assert parts[1..] == rest[1..];
      assert [c] + rest[0] + "::" + JoinDouble(rest[1..]) == [c] + (rest[0] + "::" + JoinDouble(rest[1..]));
    }
  }

  lemma {:induction false} WordsAreGroups(groups: seq<string>)
    requires Words(groups).Some?
    ensures AllGroups(groups)
  {
    if groups != [] { WordsAreGroups(groups[1..]); }
  }

  /** The groups of one side, which are none when it is empty. */
  lemma SideOf(half: string) returns (p: seq<string>)
    requires Words(HalfGroups(half)).Some?
    ensures AllGroups(p) && Join(p, ':') == half && Half(p) == HalfGroups(half) && (p == [] <==> half == "")
  {
    WordsAreGroups(HalfGroups(half));
    if half == "" {
      p := [];
      SplitHead("0", ':', "");
    } else {
      p := Split(half, ':');
      JoinSplit(half, ':');
    }
  }

  lemma FilledIs(p: seq<nat>, s: seq<nat>, w: seq<nat>)
    requires |p| + |s| <= 8 && |w| == 8
    ensures w == Fill(p, s) <==> w[..|p|] == p && w[8 - |s|..] == s && forall i :: |p| <= i < 8 - |s| ==> w[i] == 0
  {
    var f := Fill(p, s);
    if w[..|p|] == p && w[8 - |s|..] == s && forall i :: |p| <= i < 8 - |s| ==> w[i] == 0 {
      forall i | 0 <= i < 8 ensures w[i] == f[i] {
        if i < |p| { assert w[..|p|][i] == p[i]; } else if i >= 8 - |s| { assert w[8 - |s|..][i - (8 - |s|)] == w[i]; }
      }
    }
  }

  /** What the parser of groups takes apart. */
  lemma GroupsTaken(x: string, w: seq<nat>)
    requires ParseGroups(x) == Some(w)
    ensures IsGroups(x, w)
  {
    var halves := SplitDouble(x);
    JoinsSplitDouble(x);
    if |halves| == 1 {
      assert halves == [x];
      OneHalf(x, w);
    } else {
      assert halves[1..] == [halves[1]] && x == halves[0] + "::" + halves[1];
      TwoHalves(x, halves[0], halves[1], w);
    }
  }

  lemma OneHalf(x: string, w: seq<nat>)
    requires Assemble(HalfGroups(x), []) == Some(w)
    ensures IsGroups(x, w)
  {
    var p := SideOf(x);
    assert |HalfGroups(x)| == 8 && p == HalfGroups(x);
    AssembleFull(p);
    assert IsFull(x, p, w);
  }

  lemma TwoHalves(x: string, a: string, b: string, w: seq<nat>)
    requires Assemble(HalfGroups(a), HalfGroups(b)) == Some(w) && x == a + "::" + b
    ensures IsGroups(x, w)
  {
    var p := SideOf(a);
    var s := SideOf(b);
    hide Words, Values, Split, Join, AllGroups, Fill;
    AssembleHalves(p, s);
    FilledIs(Values(p), Values(s), w);
    assert IsCompressed(x, p, s, w);
  }

  /** A text without a point is an address exactly in one of the two forms. */
  lemma AcceptsIPv6(x: string, w: seq<nat>)
    requires '.' !in x
    ensures ParseIPv6(x) == Some(w) <==> IsGroups(x, w)
  {
    NoTail(x);
    hide *;
    if ParseGroups(x) == Some(w) { GroupsTaken(x, w); }
    if IsGroups(x, w) { GroupsAccepted(x, w); }
  }

  lemma GroupsAccepted(x: string, w: seq<nat>)
    requires IsGroups(x, w)
    ensures ParseGroups(x) == Some(w)
  {
    hide ParseGroups, Join, Values, AllGroups, Fill;
    if p :| IsFull(x, p, w) {
      FullForm(p);
    } else {
      var p, s :| IsCompressed(x, p, s, w);
      CompressedForm(p, s);
      FilledIs(Values(p), Values(s), w);
    }
  }

  lemma NoTail(x: string)
    requires '.' !in x
    ensures ParseIPv6(x) == ParseGroups(x)
  {
    var k := LastColon(x);
    if k > 0 {
      assert '.' !in x[k + 1..];
      SplitParts(x[k + 1..], '.');
    }
  }

  // ---- IPv6 with a dotted tail ----------------------------------------------------------------------

  /** The text with its IPv4 tail as two groups. */
  ghost predicate HasTail(x: string, front: string, quad: string, v: seq<nat>, y: string) {
    && front != "" && (forall c :: c in front ==> IsHexOrColon(c)) && x == front + ":" + quad && ParseIPv4(quad) == Some(v)
    && y == front + ":" + HexStr(v[0] * 256 + v[1]) + ":" + HexStr(v[2] * 256 + v[3])
  }

  /** A text with a point is an address exactly when its IPv4 tail is one, and so is the text with two groups instead. */
  lemma AcceptsTail(x: string, w: seq<nat>)
    requires '.' in x
    ensures ParseIPv6(x) == Some(w) <==> exists front, quad, v, y :: HasTail(x, front, quad, v, y) && ParseIPv6(y) == Some(w)
  {
    hide *;
    if ParseIPv6(x) == Some(w) {
      var front, quad, v, y := TailTaken(x, w);
    }
    if front, quad, v, y :| HasTail(x, front, quad, v, y) && ParseIPv6(y) == Some(w) { TailAccepted(x, front, quad, v, y); }
  }

  lemma TailAccepted(x: string, front: string, quad: string, v: seq<nat>, y: string)
    requires HasTail(x, front, quad, v, y)
    ensures ParseIPv6(x) == ParseIPv6(y)
  {
    hide ParseIPv4, ParseIPv6, HexStr;
    DottedTail(front, quad);
  }

  lemma TailTaken(x: string, w: seq<nat>) returns (front: string, quad: string, v: seq<nat>, y: string)
    requires '.' in x && ParseIPv6(x) == Some(w)
    ensures HasTail(x, front, quad, v, y) && ParseIPv6(y) == Some(w)
  {
    var z := WithoutIPv4Tail(x).value;
    assert ParseGroups(z) == Some(w);
    NoPoint(z, w);
    front, quad, v := TailCut(x, z);
    y := z;
    PointlessTail(x, front, quad, v, y);
    hide WithoutIPv4Tail;
    NoIPv4Tail(y);
  }

  lemma TailCut(x: string, y: string) returns (front: string, quad: string, v: seq<nat>)
    requires WithoutIPv4Tail(x) == Some(y) && y != x
    ensures HasTail(x, front, quad, v, y)
  {
    hide HexStr, ParseIPv4, IsQuad, IsHexOrColon;
    var k := LastColon(x);
    front, quad := x[..k], x[k + 1..];
    v := ParseIPv4(quad).value;
    assert x == front + ":" + quad;
  }

  lemma PointlessTail(x: string, front: string, quad: string, v: seq<nat>, y: string)
    requires HasTail(x, front, quad, v, y)
    ensures forall c :: c in y ==> IsHexOrColon(c)
  {
    hide HexStr, ParseIPv4, IsHexOrColon;
    HexChars(front, HexStr(v[0] * 256 + v[1]), HexStr(v[2] * 256 + v[3]));
  }

  lemma NoPoint(x: string, w: seq<nat>)
    requires ParseGroups(x) == Some(w)
    ensures '.' !in x
  {
    assert !IsHexOrColon('.');
  }
}
