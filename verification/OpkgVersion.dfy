/** Package version ordering: `orderOf`, `compareVersion` and `versionSatisfied`. */
module OpkgVersion {
  import opened Common

  /** The order of `s.charAt(i)`; `None` stands for the empty string found past the end. */
  function OrderOf(c: Option<char>): int {
    if c == Some('~') then -1
    else if c.None? || IsDigit(c.value) then 0
    else if IsLetter(c.value) then c.value as int
    else c.value as int + 256
  }

  function CharAt(s: string, i: nat): Option<char> {
    if i < |s| then Some(s[i]) else None
  }

  predicate DigitAt(s: string, i: nat) { i < |s| && IsDigit(s[i]) }

  predicate StartsDigit(s: string) { s != [] && IsDigit(s[0]) }

  // ---- The reference order ----------------------------------------------------------------

  // The reference definition is a key.  The key of a version lists the character orders of a
  // non-digit run, a 0 for the end of the run, the numeric value of the digit run that follows,
  // and then the key of the rest.  Keys are compared lexicographically as if each were continued
  // by zeros for ever; '~' has order -1 and so sorts below the end of a run.

  /** The key of a version read from the start of a non-digit run. */
  function Key(s: string): seq<int>
    decreases |s|, if StartsDigit(s) then 2 else 0
  {
    if s == [] then []
    else if IsDigit(s[0]) then [0] + NumberKey(s, 0)
    else [OrderOf(Some(s[0]))] + Key(s[1..])
  }

  /** The key of what follows when the digits read so far have value `acc`. */
  function NumberKey(s: string, acc: nat): seq<int>
    decreases |s|, 1
  {
    if StartsDigit(s) then NumberKey(s[1..], 10 * acc + DigitValue(s[0])) else [acc] + Key(s)
  }

  function Head(a: seq<int>): int { if a == [] then 0 else a[0] }

  function Tail(a: seq<int>): seq<int> { if a == [] then [] else a[1..] }

  /** Lexicographic comparison of zero-padded keys. */
  function CompareKeys(a: seq<int>, b: seq<int>): int
    decreases |a| + |b|
  {
    if a == [] && b == [] then 0
    else if Head(a) != Head(b) then Sign(Head(a) - Head(b))
    else CompareKeys(Tail(a), Tail(b))
  }

  /** The canonical form of a key: trailing zeros carry no information. */
  function Canonical(a: seq<int>): seq<int> {
    if a == [] then []
    else var t := Canonical(a[1..]); if t == [] && a[0] == 0 then [] else [a[0]] + t
  }

  function Compare(v: string, w: string): int { CompareKeys(Key(v), Key(w)) }

  lemma {:induction false} PadCompare(b: seq<int>)
    ensures CompareKeys([0], b) == CompareKeys([], b)
    ensures CompareKeys(b, [0]) == CompareKeys(b, [])
  {
    if b == [] {
    } else {
      assert [0][1..] == [];
    }
  }

  lemma {:induction false} CompareReflexive(a: seq<int>)
    ensures CompareKeys(a, a) == 0
  {
    if a != [] { CompareReflexive(a[1..]); }
  }

  lemma {:induction false} CompareAntisymmetric(a: seq<int>, b: seq<int>)
    ensures CompareKeys(a, b) == -CompareKeys(b, a)
    decreases |a| + |b|
  {
    if a != [] || b != [] { CompareAntisymmetric(Tail(a), Tail(b)); }
  }

  lemma {:induction false} CompareTransitive(a: seq<int>, b: seq<int>, c: seq<int>)
    requires CompareKeys(a, b) <= 0 && CompareKeys(b, c) <= 0
    ensures CompareKeys(a, c) <= 0
    ensures CompareKeys(a, b) < 0 || CompareKeys(b, c) < 0 ==> CompareKeys(a, c) < 0
    decreases |a| + |b| + |c|
  {
    if (a != [] || b != [] || c != []) && Head(a) == Head(b) == Head(c) {
      CompareTransitive(Tail(a), Tail(b), Tail(c));
    }
  }

  lemma {:induction false} CompareZero(a: seq<int>, b: seq<int>)
    ensures CompareKeys(a, b) == 0 <==> Canonical(a) == Canonical(b)
    decreases |a| + |b|
  {
    if a != [] || b != [] {
      CompareZero(Tail(a), Tail(b));
      CanonicalUnfold(a);
      CanonicalUnfold(b);
      assert Head(Canonical(a)) == Head(a) && Tail(Canonical(a)) == Canonical(Tail(a));
      assert Head(Canonical(b)) == Head(b) && Tail(Canonical(b)) == Canonical(Tail(b));
    }
  }

  lemma CanonicalUnfold(a: seq<int>)
    ensures Canonical(a) == if Canonical(Tail(a)) == [] && Head(a) == 0 then []
                            else [Head(a)] + Canonical(Tail(a))
  {
  }

  /** `compareVersion`'s order on all version strings is a total preorder, with equality of keys. */
  lemma VersionOrder(u: string, v: string, w: string)
    ensures Compare(u, u) == 0
    ensures Compare(u, v) == -Compare(v, u)
    ensures Compare(u, v) <= 0 && Compare(v, w) <= 0 ==> Compare(u, w) <= 0
    ensures Compare(u, v) <= 0 && Compare(v, w) < 0 ==> Compare(u, w) < 0
    ensures Compare(u, v) < 0 && Compare(v, w) <= 0 ==> Compare(u, w) < 0
    ensures Compare(u, v) == 0 <==> Canonical(Key(u)) == Canonical(Key(v))
  {
    CompareReflexive(Key(u));
    CompareAntisymmetric(Key(u), Key(v));
    CompareZero(Key(u), Key(v));
    if Compare(u, v) <= 0 && Compare(v, w) <= 0 {
      CompareTransitive(Key(u), Key(v), Key(w));
    }
  }

  /** "1.0~rc1" comes before "1.0": appending a '~' part to any version makes it older. */
  lemma {:induction false} TildeIsOlder(v: string, suffix: string)
    ensures Compare(v + "~" + suffix, v) == -1
    decreases |v|, if StartsDigit(v) then 2 else 0
  {
    var w := v + "~" + suffix;
    if v != [] {
      assert w[1..] == v[1..] + "~" + suffix;
      if IsDigit(v[0]) { TildeNumber(v, suffix, 0); } else { TildeIsOlder(v[1..], suffix); }
    }
  }

  lemma {:induction false} TildeNumber(v: string, suffix: string, acc: nat)
    ensures CompareKeys(NumberKey(v + "~" + suffix, acc), NumberKey(v, acc)) == -1
    decreases |v|, 1
  {
    var w := v + "~" + suffix;
    if StartsDigit(v) {
      assert w[1..] == v[1..] + "~" + suffix;
      TildeNumber(v[1..], suffix, 10 * acc + DigitValue(v[0]));
    } else {
      TildeIsOlder(v, suffix);
    }
  }

  // ---- compareVersion ---------------------------------------------------------------------

  /** One common non-digit position: the orders decide, or both strings go on with equal characters. */
  lemma RunStep(v: string, w: string)
    requires (v != [] && !IsDigit(v[0])) || (w != [] && !IsDigit(w[0]))
    ensures var vc, wc := OrderOf(CharAt(v, 0)), OrderOf(CharAt(w, 0));
            if vc != wc then Sign(vc - wc) == Compare(v, w)
            else v != [] && w != [] && v[0] == w[0] && Compare(v, w) == Compare(v[1..], w[1..])
  {
    assert Head(Key(v)) == OrderOf(CharAt(v, 0));
    assert Head(Key(w)) == OrderOf(CharAt(w, 0));
    if OrderOf(CharAt(v, 0)) == OrderOf(CharAt(w, 0)) {
      assert Tail(Key(v)) == Key(v[1..]) && Tail(Key(w)) == Key(w[1..]);
    }
  }

  /** At the end of both runs the comparison goes on with the numbers. */
  lemma NumberStep(v: string, w: string)
    requires v == [] || IsDigit(v[0])
    requires w == [] || IsDigit(w[0])
    ensures Compare(v, w) == CompareKeys(NumberKey(v, 0), NumberKey(w, 0))
  {
    var a, b := NumberKey(v, 0), NumberKey(w, 0);
    assert Head(Key(v)) == 0 && Head(Key(w)) == 0;
    if v == [] && w == [] {
      assert [0] + [] == [0];
    } else if v == [] {
      assert Tail(Key(w)) == b && a == [0];
      PadCompare(b);
    } else if w == [] {
      assert Tail(Key(v)) == a && b == [0];
      PadCompare(a);
    } else {
      assert Tail(Key(v)) == a && Tail(Key(w)) == b;
    }
  }

  /** A digit run that goes on only makes the number larger. */
  lemma {:induction false} NumberGrows(s: string, acc: nat)
    ensures NumberKey(s, acc) != [] && NumberKey(s, acc)[0] >= acc
    ensures StartsDigit(s) ==> NumberKey(s, acc)[0] >= 10 * acc + DigitValue(s[0])
    ensures !StartsDigit(s) ==> NumberKey(s, acc)[0] == acc && NumberKey(s, acc)[1..] == Key(s)
  {
    if StartsDigit(s) { NumberGrows(s[1..], 10 * acc + DigitValue(s[0])); }
  }

  /** Prefixes of equal length without leading zeros differ by less than a factor of ten. */
  ghost predicate SameLength(p: nat, q: nat, v: string, w: string) {
    || (p == q == 0 && (StartsDigit(v) ==> v[0] != '0') && (StartsDigit(w) ==> w[0] != '0'))
    || (p < 10 * q && q < 10 * p)
  }

  method SkipZeros(s: string, i: nat) returns (j: nat)
    requires i <= |s|
    ensures i <= j <= |s| && (j < |s| ==> s[j] != '0')
    ensures NumberKey(s[j..], 0) == NumberKey(s[i..], 0)
    ensures j == i ==> DigitAt(s, j) == DigitAt(s, i)
  {
    j := i;
    while j < |s| && s[j] == '0'
      invariant i <= j <= |s|
      invariant NumberKey(s[j..], 0) == NumberKey(s[i..], 0)
    {
      assert s[j..][1..] == s[j + 1..];
      j := j + 1;
    }
  }

  /** Reads the digits the two numbers have in common and keeps the first difference. */
  method CommonDigits(val: string, ref: string, vi0: nat, ri0: nat)
    returns (vi: nat, ri: nat, firstDiff: int, ghost p: nat, ghost q: nat)
    requires vi0 <= |val| && ri0 <= |ref|
    requires SameLength(0, 0, val[vi0..], ref[ri0..])
    ensures vi0 <= vi <= |val| && ri0 <= ri <= |ref|
    ensures !(DigitAt(val, vi) && DigitAt(ref, ri))
    ensures NumberKey(val[vi0..], 0) == NumberKey(val[vi..], p)
    ensures NumberKey(ref[ri0..], 0) == NumberKey(ref[ri..], q)
    ensures Sign(firstDiff) == Sign(p - q) && SameLength(p, q, val[vi..], ref[ri..])
  {
    vi, ri, firstDiff, p, q := vi0, ri0, 0, 0, 0;
    while DigitAt(val, vi) && DigitAt(ref, ri)
      invariant vi0 <= vi <= |val| && ri0 <= ri <= |ref|
      invariant NumberKey(val[vi0..], 0) == NumberKey(val[vi..], p)
      invariant NumberKey(ref[ri0..], 0) == NumberKey(ref[ri..], q)
      invariant Sign(firstDiff) == Sign(p - q)
      invariant SameLength(p, q, val[vi..], ref[ri..])
      decreases |val| - vi
    {
      var dv: int, dr: int := DigitValue(val[vi]), DigitValue(ref[ri]);
      firstDiff := if firstDiff != 0 then firstDiff else dv - dr;
      p, q := 10 * p + dv, 10 * q + dr;
      assert val[vi..][1..] == val[vi + 1..] && ref[ri..][1..] == ref[ri + 1..];
      vi, ri := vi + 1, ri + 1;
    }
  }

  /** What is known once the common digits are read: who has digits left wins, else the first difference. */
  lemma NumberDecides(v: string, w: string, p: nat, q: nat)
    requires SameLength(p, q, v, w) && !(StartsDigit(v) && StartsDigit(w))
    ensures var c := CompareKeys(NumberKey(v, p), NumberKey(w, q));
            c == if StartsDigit(v) then 1 else if StartsDigit(w) then -1
                 else if p != q then Sign(p - q) else Compare(v, w)
  {
    NumberGrows(v, p);
    NumberGrows(w, q);
  }

  lemma EmptyEqual()
    ensures Compare("", "") == 0
  {
  }

  /** Neither text goes on with anything but a digit. */
  predicate AtNumber(s: string, i: nat)
    requires i <= |s|
  {
    i == |s| || IsDigit(s[i])
  }

  /** The first inner loop: character by character up to a digit. */
  method CompareRuns(val: string, ref: string, vi0: nat, ri0: nat) returns (vi: nat, ri: nat, r: int)
    requires vi0 <= |val| && ri0 <= |ref|
    ensures vi0 <= vi <= |val| && ri0 <= ri <= |ref|
    ensures r != 0 ==> Sign(r) == Compare(val[vi0..], ref[ri0..])
    ensures r == 0 ==> Compare(val[vi0..], ref[ri0..]) == Compare(val[vi..], ref[ri..]) && AtNumber(val, vi) && AtNumber(ref, ri)
  {
    vi, ri := vi0, ri0;
    hide Compare;
    while (vi < |val| && !IsDigit(val[vi])) || (ri < |ref| && !IsDigit(ref[ri]))
      invariant vi0 <= vi <= |val| && ri0 <= ri <= |ref|
      invariant Compare(val[vi0..], ref[ri0..]) == Compare(val[vi..], ref[ri..])
      decreases |val| - vi + |ref| - ri
    {
      var vc, rc := OrderOf(CharAt(val, vi)), OrderOf(CharAt(ref, ri));
      RunStep(val[vi..], ref[ri..]);
      if vc != rc { return vi, ri, vc - rc; }
      assert val[vi..][1..] == val[vi + 1..] && ref[ri..][1..] == ref[ri + 1..];
      vi, ri := vi + 1, ri + 1;
    }
    r := 0;
  }

  /** The other inner loops: one number against another. */
  method CompareNumbers(val: string, ref: string, vi0: nat, ri0: nat) returns (vi: nat, ri: nat, r: int)
    requires vi0 <= |val| && ri0 <= |ref| && AtNumber(val, vi0) && AtNumber(ref, ri0)
    ensures vi0 <= vi <= |val| && ri0 <= ri <= |ref|
    ensures r != 0 ==> Sign(r) == Compare(val[vi0..], ref[ri0..])
    ensures r == 0 ==> Compare(val[vi0..], ref[ri0..]) == Compare(val[vi..], ref[ri..])
    ensures r == 0 && (vi0 < |val| || ri0 < |ref|) ==> vi0 + ri0 < vi + ri
  {
    NumberStep(val[vi0..], ref[ri0..]);
    hide Compare, CompareKeys, NumberKey;
    vi := SkipZeros(val, vi0);
    ri := SkipZeros(ref, ri0);
    ghost var p, q;
    vi, ri, r, p, q := CommonDigits(val, ref, vi, ri);
    NumberDecides(val[vi..], ref[ri..], p, q);
    if DigitAt(val, vi) { return vi, ri, 1; }
    if DigitAt(ref, ri) { return vi, ri, -1; }
  }

  method CompareVersion(val: string, ref: string) returns (r: int)
    ensures Sign(r) == Compare(val, ref)
  {
    if val == ref {
      CompareReflexive(Key(val));
      return 0;
    }
    var vi: nat, ri: nat := 0, 0;
    assert val[0..] == val && ref[0..] == ref;
    EmptyEqual();
    hide Compare;
    while vi < |val| || ri < |ref|
      invariant vi <= |val| && ri <= |ref|
      invariant Compare(val, ref) == Compare(val[vi..], ref[ri..])
      decreases |val| - vi + |ref| - ri
    {
      vi, ri, r := CompareRuns(val, ref, vi, ri);
      if r != 0 { return; }
      vi, ri, r := CompareNumbers(val, ref, vi, ri);
      if r != 0 { return; }
    }
    r := 0;
  }

  // ---- What the order says about texts ----------------------------------------------------

  predicate EndsInDigit(s: string) { s != "" && IsDigit(s[|s| - 1]) }

  /** A common prefix decides nothing, unless it cuts a number in two. */
  lemma {:induction false} CommonPrefix(p: string, v: string, w: string)
    requires !EndsInDigit(p) || (!StartsDigit(v) && !StartsDigit(w))
    ensures Compare(p + v, p + w) == Compare(v, w)
    decreases |p|, if StartsDigit(p) then 2 else 0
  {
    if p == "" {
      assert p + v == v && p + w == w;
    } else {
      assert (p + v)[1..] == p[1..] + v && (p + w)[1..] == p[1..] + w;
      assert |p| > 1 ==> p[1..][|p| - 2] == p[|p| - 1];
      if IsDigit(p[0]) {
        hide NumberKey;
        NumberPrefix(p, v, w, 0);
      } else {
        CommonPrefix(p[1..], v, w);
      }
    }
  }

  lemma {:induction false} NumberPrefix(p: string, v: string, w: string, acc: nat)
    requires !EndsInDigit(p) || (!StartsDigit(v) && !StartsDigit(w))
    requires p != "" || (!StartsDigit(v) && !StartsDigit(w))
    ensures CompareKeys(NumberKey(p + v, acc), NumberKey(p + w, acc)) == Compare(v, w)
    decreases |p|, 1
  {
    if StartsDigit(p) {
      assert (p + v)[1..] == p[1..] + v && (p + w)[1..] == p[1..] + w;
      assert |p| > 1 ==> p[1..][|p| - 2] == p[|p| - 1];
      NumberPrefix(p[1..], v, w, 10 * acc + DigitValue(p[0]));
    } else {
      CommonPrefix(p, v, w);
      assert p == "" ==> p + v == v && p + w == w;
      assert NumberKey(p + v, acc) == [acc] + Key(p + v) && NumberKey(p + w, acc) == [acc] + Key(p + w);
    }
  }

  /**
   * After a common prefix '~' sorts before the end of the text, which sorts before the letters; these come
   * before all other characters, and within each kind the codes decide.
   */
  lemma CharsInOrder(p: string, c: char, d: char, x: string, y: string)
    requires !IsDigit(c) && !IsDigit(d)
    ensures c == '~' ==> Compare(p + [c] + x, p) == -1
    ensures c == '~' && d != '~' ==> Compare(p + [c] + x, p + [d] + y) == -1
    ensures d != '~' ==> Compare(p, p + [d] + y) == -1
    ensures IsLetter(c) && !IsLetter(d) && d != '~' ==> Compare(p + [c] + x, p + [d] + y) == -1
    ensures IsLetter(c) && IsLetter(d) && c < d ==> Compare(p + [c] + x, p + [d] + y) == -1
    ensures c != '~' && d != '~' && !IsLetter(c) && !IsLetter(d) && c < d ==> Compare(p + [c] + x, p + [d] + y) == -1
    ensures c == d ==> Compare(p + [c] + x, p + [d] + y) == Compare(x, y)
  {
    var v, w := [c] + x, [d] + y;
    assert p + [c] + x == p + v && p + [d] + y == p + w && p + "" == p;
    CommonPrefix(p, v, w);
    CommonPrefix(p, v, "");
    CommonPrefix(p, "", w);
    hide Compare;
    RunStep(v, w);
    RunStep(v, "");
    RunStep("", w);
    assert v[1..] == x && w[1..] == y;
  }

  /** Where a number may begin, a digit sorts before every character but '~'. */
  lemma DigitIsOlder(p: string, c: char, d: char, x: string, y: string)
    requires !EndsInDigit(p) && !IsDigit(c) && IsDigit(d)
    ensures Compare(p + [d] + y, p + [c] + x) == if c == '~' then 1 else -1
  {
    var v, w := [c] + x, [d] + y;
    assert p + [c] + x == p + v && p + [d] + y == p + w;
    CommonPrefix(p, w, v);
    hide Compare;
    RunStep(w, v);
  }

  lemma {:induction false} NumberIsNat(q: string, a: string, x: string)
    requires AllDigits(q) && AllDigits(a) && AllDigits(q + a) && !StartsDigit(x)
    ensures NumberKey(a + x, NatOf(q)) == [NatOf(q + a)] + Key(x)
    decreases |a|
  {
    if a == "" {
      assert a + x == x && q + a == q;
    } else {
      var q' := q + [a[0]];
      assert a[0] in a && (a + x)[1..] == a[1..] + x && q' + a[1..] == q + a && q'[..|q'| - 1] == q;
      assert forall c :: c in a[1..] ==> c in a;
      NumberIsNat(q', a[1..], x);
    }
  }

  /** Whole numbers compare by value, "1.10" after "1.9"; equal ones leave the decision to the rest. */
  lemma NumbersInOrder(p: string, a: string, b: string, x: string, y: string)
    requires !EndsInDigit(p) && a != "" && b != "" && AllDigits(a) && AllDigits(b) && !StartsDigit(x) && !StartsDigit(y)
    ensures Compare(p + a + x, p + b + y) ==
              if NatOf(a) != NatOf(b) then Sign(NatOf(a) - NatOf(b)) else Compare(x, y)
  {
    assert Compare(x, y) == CompareKeys(Key(x), Key(y));
    hide *;
    assert p + a + x == p + (a + x) && p + b + y == p + (b + y);
    CommonPrefix(p, a + x, b + y);
    WholeNumber(a, x);
    WholeNumber(b, y);
    NumberStep(a + x, b + y);
    TwoNumbers(NatOf(a), NatOf(b), Key(x), Key(y));
  }

  lemma WholeNumber(a: string, x: string)
    requires a != "" && AllDigits(a) && !StartsDigit(x)
    ensures IsDigit((a + x)[0]) && NumberKey(a + x, 0) == [NatOf(a)] + Key(x)
  {
    assert (a + x)[0] == a[0] && a[0] in a && "" + a == a;
    assert NatOf("") == 0;
    hide NumberKey, NatOf, Key;
    NumberIsNat("", a, x);
  }

  lemma TwoNumbers(m: nat, n: nat, a: seq<int>, b: seq<int>)
    ensures CompareKeys([m] + a, [n] + b) == if m != n then Sign(m - n) else CompareKeys(a, b)
  {
    assert Tail([m] + a) == a && Tail([n] + b) == b;
  }

  // ---- versionSatisfied -------------------------------------------------------------------

  /** Note that "<" and ">" admit equality, exactly as "<=" and ">=" do. */
  predicate Satisfied(ver: string, ref: string, vop: string) {
    var r := Compare(ver, ref);
    match vop
    case "<" => r <= 0
    case "<=" => r <= 0
    case ">" => r >= 0
    case ">=" => r >= 0
    case "<<" => r < 0
    case ">>" => r > 0
    case "=" => r == 0
    case _ => false
  }

  method VersionSatisfied(ver: string, ref: string, vop: string) returns (ok: bool)
    ensures ok == Satisfied(ver, ref, vop)
  {
    var r := CompareVersion(ver, ref);
    if vop == "<" || vop == "<=" { return r <= 0; }
    if vop == ">" || vop == ">=" { return r >= 0; }
    if vop == "<<" { return r < 0; }
    if vop == ">>" { return r > 0; }
    if vop == "=" { return r == 0; }
    return false;
  }

  /** A newer version keeps satisfying a lower bound, an older one an upper bound. */
  lemma SatisfiedIsClosed(v: string, w: string, ref: string, vop: string)
    requires Satisfied(v, ref, vop)
    ensures vop in {">", ">=", ">>"} && Compare(v, w) <= 0 ==> Satisfied(w, ref, vop)
    ensures vop in {"<", "<=", "<<"} && Compare(w, v) <= 0 ==> Satisfied(w, ref, vop)
    ensures Canonical(Key(v)) == Canonical(Key(w)) ==> Satisfied(w, ref, vop)
  {
    VersionOrder(v, w, ref);
    VersionOrder(w, v, ref);
    VersionOrder(ref, v, w);
    VersionOrder(v, ref, w);
    VersionOrder(w, ref, v);
  }

  /** The operators as relations: "<" and "<=" are one, and so are ">" and ">="; any other text is no operator. */
  lemma OperatorLaws(v: string, w: string, suffix: string, vop: string)
    ensures Satisfied(v, w, "<") <==> Satisfied(v, w, "<=")
    ensures Satisfied(v, w, ">") <==> Satisfied(v, w, ">=")
    ensures Satisfied(v, w, "<<") <==> !Satisfied(v, w, ">=")
    ensures Satisfied(v, w, ">>") <==> !Satisfied(v, w, "<=")
    ensures Satisfied(v, w, "=") <==> Satisfied(v, w, "<=") && Satisfied(v, w, ">=")
    ensures Satisfied(v, w, "<=") <==> Satisfied(w, v, ">=")
    ensures Satisfied(v, v, "=")
    ensures Satisfied(v + "~" + suffix, v, "<<")
    ensures Satisfied(v, w, vop) ==> vop in {"<", "<=", ">", ">=", "<<", ">>", "="}
  {
    VersionOrder(v, w, w);
    TildeIsOlder(v, suffix);
  }
}
