/**
 * Text: splitting at a separator and joining, backslashes, and white space.
 *
 * Splitting is that of the source's `split` with a one-character separator: the parts are never an
 * empty list.  White space is what `trim` takes away from the ends.
 */
module Strings {

  // ---- Splitting and joining ------------------------------------------------------------------

  function Split(s: string, sep: char): (parts: seq<string>)
    ensures parts != []
  {
    if s == "" then [""]
    else
      var rest := Split(s[1..], sep);
      if s[0] == sep then [""] + rest else [[s[0]] + rest[0]] + rest[1..]
  }

  function Join(parts: seq<string>, sep: char): string {
    if parts == [] then "" else if |parts| == 1 then parts[0] else parts[0] + [sep] + Join(parts[1..], sep)
  }

  lemma {:induction false} SplitHead(a: string, sep: char, b: string)
    requires sep !in a
    ensures Split(a + [sep] + b, sep) == [a] + Split(b, sep)
    ensures Split(a, sep) == [a]
  {
    if a == "" {
      assert ("" + [sep] + b)[1..] == b;
    } else {
      assert (a + [sep] + b)[1..] == a[1..] + [sep] + b && a[0] in a;
      SplitHead(a[1..], sep, b);
      assert [a[0]] + a[1..] == a;
    }
  }

  lemma {:induction false} SplitJoin(parts: seq<string>, sep: char)
    requires parts != [] && forall p :: p in parts ==> sep !in p
    ensures Split(Join(parts, sep), sep) == parts
  {
    assert parts[0] in parts;
    if |parts| == 1 {
      SplitHead(parts[0], sep, "");
    } else {
      SplitHead(parts[0], sep, Join(parts[1..], sep));
      SplitJoin(parts[1..], sep);
    }
  }

  lemma {:induction false} JoinSplit(s: string, sep: char)
    ensures Join(Split(s, sep), sep) == s
  {
    if s != "" {
      var rest, parts := Split(s[1..], sep), Split(s, sep);
      JoinSplit(s[1..], sep);
      if s[0] == sep {
        assert parts[1..] == rest;
      } else if |rest| > 1 {
        assert parts[1..] == rest[1..];
        assert Join(parts, sep) == [s[0]] + (rest[0] + [sep] + Join(rest[1..], sep));
      }
    }
  }

  lemma {:induction false} SplitParts(s: string, sep: char)
    ensures |Split(s, sep)| > 1 ==> sep in s
    ensures forall c :: c in s ==> c == sep || exists p :: p in Split(s, sep) && c in p
  {
    if s != "" {
      var rest, parts := Split(s[1..], sep), Split(s, sep);
      SplitParts(s[1..], sep);
      forall c | c in s && c != sep ensures exists p :: p in parts && c in p {
        if c == s[0] {
          assert c in parts[0] && parts[0] in parts;
        } else {
          assert c in s[1..];
          var p :| p in rest && c in p;
          if p == rest[0] { assert s[0] != sep ==> c in parts[0] && parts[0] in parts; }
          assert s[0] == sep ==> p in parts;
          assert s[0] != sep && p != rest[0] ==> p in rest[1..] && p in parts;
        }
      }
    }
  }

  lemma {:induction false} JoinLast(parts: seq<string>, sep: char)
    requires |parts| > 1
    ensures Join(parts, sep) == Join(parts[..|parts| - 1], sep) + [sep] + parts[|parts| - 1]
  {
    var front := parts[..|parts| - 1];
    if |parts| == 2 {
      assert parts[1..] == [parts[1]] && front == [parts[0]];
    } else {
      JoinLast(parts[1..], sep);
      assert parts[1..][..|parts| - 2] == front[1..];
    }
  }

  // ---- Backslashes ----------------------------------------------------------------------------

  predicate IsLineEnd(c: char) { c == '\n' || c == '\r' }

  /** Replaces each backslash and the character after it by that character. */
  function Unescape(s: string): string {
    if s == "" then ""
    else if s[0] == '\\' && |s| > 1 && !IsLineEnd(s[1]) then [s[1]] + Unescape(s[2..])
    else [s[0]] + Unescape(s[1..])
  }

  // ---- White space ----------------------------------------------------------------------------

  /** What `trim` takes away and `\s` matches. */
  predicate IsSpace(c: char) { 9 <= c as int <= 13 || c == ' ' || c as int == 160 }

  function TrimLeft(s: string): (t: string)
    ensures |t| <= |s|
  {
    if s != "" && IsSpace(s[0]) then TrimLeft(s[1..]) else s
  }

  function TrimRight(s: string): (t: string)
    ensures |t| <= |s|
  {
    if s != "" && IsSpace(s[|s| - 1]) then TrimRight(s[..|s| - 1]) else s
  }

  function Trim(s: string): (t: string)
    ensures |t| <= |s|
  {
    TrimRight(TrimLeft(s))
  }

  /** Tabulator, line ends and feeds, the space and the fixed space are taken away, from both ends, and nothing else. */
  lemma TrimTakes(a: string, s: string, b: string)
    requires forall c :: c in a || c in b ==> c as int in [9, 10, 11, 12, 13, 32, 160]
    requires s != "" ==> s[0] as int !in [9, 10, 11, 12, 13, 32, 160] && s[|s| - 1] as int !in [9, 10, 11, 12, 13, 32, 160]
    ensures Trim(a + s + b) == s
  {
    forall c | c in a || c in b ensures IsSpace(c) {}
    assert s != "" ==> !IsSpace(s[0]) && !IsSpace(s[|s| - 1]);
    hide IsSpace;
    if s == "" {
      assert a + s + b == (a + b) + "";
      LeftTaken(a + b, "");
    } else {
      assert a + s + b == a + (s + b);
      LeftTaken(a, s + b);
      RightTaken(s, b);
    }
  }

  lemma {:induction false} LeftTaken(a: string, t: string)
    requires (forall c :: c in a ==> IsSpace(c)) && (t == "" || !IsSpace(t[0]))
    ensures TrimLeft(a + t) == t
  {
    if a == "" {
      assert a + t == t;
    } else {
      assert a[0] in a && (a + t)[1..] == a[1..] + t && forall c :: c in a[1..] ==> c in a;
      LeftTaken(a[1..], t);
    }
  }

  lemma {:induction false} RightTaken(t: string, b: string)
    requires (forall c :: c in b ==> IsSpace(c)) && (t == "" || !IsSpace(t[|t| - 1]))
    ensures TrimRight(t + b) == t
  {
    if b == "" {
      assert t + b == t;
    } else {
      var front := b[..|b| - 1];
      assert b[|b| - 1] in b && (t + b)[..|t + b| - 1] == t + front && forall c :: c in front ==> c in b;
      RightTaken(t, front);
    }
  }
}
