/**
 * Datatype expressions such as "or(uinteger, range(0,255), 'auto')": the compiler from text to a stack
 * of entries, and the proof that it undoes printing.
 */
module DatatypeCompiler {
  import opened Common
  import opened Strings

  /** A literal takes one slot of the stack, a type two: the function and its arguments. */
  datatype Entry = Num(value: real) | Text(text: string) | Fn(name: string) | NoArgs | Args(entries: seq<Entry>)

  datatype Error = UnhandledToken(token: string) | FollowsNonFunction

  datatype Result<T> = Ok(value: T) | Raise(error: Error)

  // ---- Labels -------------------------------------------------------------------------------

  predicate IsBlank(c: char) { c == ' ' || c == '\t' }

  /** Only blanks are stripped from a label. */
  function StripLeft(s: string): string { if s != "" && IsBlank(s[0]) then StripLeft(s[1..]) else s }

  function StripRight(s: string): string { if s != "" && IsBlank(s[|s| - 1]) then StripRight(s[..|s| - 1]) else s }

  function Strip(s: string): string { StripRight(StripLeft(s)) }

  function Pow10(k: nat): (p: nat)
    ensures p > 0
  {
    if k == 0 then 1 else 10 * Pow10(k - 1)
  }

  function Unsigned(s: string): string { if s != "" && (s[0] == '-' || s[0] == '+') then s[1..] else s }

  /** The position of the first point, or the length. */
  function PointAt(s: string): (k: nat)
    ensures k <= |s|
  {
    if s == "" || s[0] == '.' then 0 else 1 + PointAt(s[1..])
  }

  function Fraction(s: string): string { if PointAt(s) < |s| then s[PointAt(s) + 1..] else "" }

  /** Decimal numbers with an optional sign and an optional fraction. */
  predicate IsDecimal(s: string) {
    var u := Unsigned(s);
    AllDigits(u[..PointAt(u)]) && AllDigits(Fraction(u)) && (PointAt(u) > 0 || Fraction(u) != "")
  }

  function DecimalValue(s: string): real
    requires IsDecimal(s)
  {
    var u := Unsigned(s);
    var v := NatOf(u[..PointAt(u)]) as real + NatOf(Fraction(u)) as real / Pow10(|Fraction(u)|) as real;
    if s[0] == '-' then -v else v
  }

  lemma {:induction false} PointAfter(a: string, more: string)
    requires '.' !in a && (more == "" || more[0] == '.')
    ensures PointAt(a + more) == |a|
  {
    if a == "" {
      assert a + more == more;
    } else {
      assert a[0] in a && (a + more)[1..] == a[1..] + more;
      PointAfter(a[1..], more);
    }
  }

  /** Digits before the point are whole, each digit behind it is a tenth of the one before; a sign turns the value. */
  lemma NumberLabels(a: string, f: string, s: string)
    requires a != "" && AllDigits(a) && AllDigits(f) && s == if f == "" then a else a + "." + f
    ensures IsDecimal(s) && DecimalValue(s) == NatOf(a) as real + NatOf(f) as real / Pow10(|f|) as real
    ensures Pow10(0) == 1 && Pow10(1) == 10 && Pow10(2) == 100
    ensures IsDecimal("+" + s) && DecimalValue("+" + s) == DecimalValue(s)
    ensures IsDecimal("-" + s) && DecimalValue("-" + s) == -DecimalValue(s)
  {
    PointOf(a, f, s);
    SignedDecimal(s);
    hide NatOf, PointAt, AllDigits;
  }

  lemma PointOf(a: string, f: string, s: string)
    requires a != "" && AllDigits(a) && AllDigits(f) && s == if f == "" then a else a + "." + f
    ensures Unsigned(s) == s && PointAt(s) == |a| && s[..|a|] == a && Fraction(s) == f && IsDecimal(s)
    ensures s != "" && IsDigit(s[0])
  {
    var more := if f == "" then "" else "." + f;
    assert s == a + more && a[0] in a && s[0] == a[0];
    assert '.' !in a by { assert !IsDigit('.'); }
    PointAfter(a, more);
    hide PointAt, AllDigits;
    assert s[..|a|] == a;
    assert f != "" ==> s[|a| + 1..] == f;
  }

  lemma SignedDecimal(s: string)
    requires IsDecimal(s) && s != "" && IsDigit(s[0])
    ensures IsDecimal("+" + s) && DecimalValue("+" + s) == DecimalValue(s)
    ensures IsDecimal("-" + s) && DecimalValue("-" + s) == -DecimalValue(s)
  {
    assert Unsigned(s) == s && Unsigned("+" + s) == s && Unsigned("-" + s) == s;
  }

  predicate IsQuoted(s: string) {
    |s| >= 2 && (s[0] == '\'' || s[0] == '"') && s[|s| - 1] == s[0] && forall c :: c in s ==> !IsLineEnd(c)
  }

  /** What the text between two delimiters adds to the stack; `types` are the known type names. */
  function PushLabel(types: set<string>, stack: seq<Entry>, cur: string): Result<seq<Entry>> {
    if cur == "" then Ok(stack)
    else
      var token := Strip(Unescape(cur));
      if token != "" && IsDecimal(token) then Ok(stack + [Num(DecimalValue(token))])
      else if IsQuoted(token) then Ok(stack + [Text(token[1..|token| - 1])])
      else if token in types then Ok(stack + [Fn(token), NoArgs])
      else Raise(UnhandledToken(token))
  }

  predicate TakesArgs(stack: seq<Entry>) { |stack| >= 2 && stack[|stack| - 2].Fn? }

  // ---- The scanner as a function --------------------------------------------------------------

  /** `cur` is the text since the last delimiter that counted. */
  datatype Scan = Scan(cur: string, esc: bool, depth: int, stack: seq<Entry>)

  function Compile(types: set<string>, code: string): Result<seq<Entry>>
    decreases |code|, |code| + 2
  {
    Run(types, Scan("", false, 0, []), code + ",", |code|)
  }

  /** Input that still ends in the final comma, for a text of n characters. */
  predicate Pending(st: Scan, input: string, n: nat) {
    |st.cur| + |input| <= n + 1 && (input != "" ==> input[|input| - 1] == ',')
  }

  function Run(types: set<string>, st: Scan, input: string, n: nat): Result<seq<Entry>>
    requires Pending(st, input, n)
    decreases n, |input|
  {
    if input == "" then Ok(st.stack)
    else
      var c, rest, keep := input[0], input[1..], st.(cur := st.cur + [input[0]]);
      if st.esc then Run(types, keep.(esc := false), rest, n)
      else if c == '\\' then Run(types, keep.(esc := true), rest, n)
      else if c == '(' || c == ',' then
        var depth := if c == '(' then st.depth + 1 else st.depth;
        if st.depth > 0 then Run(types, keep.(depth := depth), rest, n)
        else
          var pushed := PushLabel(types, st.stack, st.cur);
          if pushed.Raise? then pushed else Run(types, Scan("", false, depth, pushed.value), rest, n)
      else if c == ')' then
        if st.depth > 1 then Run(types, keep.(depth := st.depth - 1), rest, n)
        else if !TakesArgs(st.stack) then Raise(FollowsNonFunction)
        else
          var args := Compile(types, st.cur);
          if args.Raise? then args
          else Run(types, Scan("", false, st.depth - 1, st.stack[..|st.stack| - 1] + [Args(args.value)]), rest, n)
      else Run(types, keep, rest, n)
  }

  // ---- The compiler ---------------------------------------------------------------------------

  method CompileExpression(types: set<string>, code0: string) returns (r: Result<seq<Entry>>)
    ensures r == Compile(types, code0)
    decreases |code0|
  {
    var pos, esc, depth := 0, false, 0;
    var stack: seq<Entry> := [];
    var code := code0 + ",";
    assert code[0..0] == "" && code[0..] == code;
    for i := 0 to |code|
      invariant 0 <= pos <= i
      invariant Run(types, Scan(code[pos..i], esc, depth, stack), code[i..], |code0|) == Compile(types, code0)
    {
      assert code[pos..i + 1] == code[pos..i] + [code[i]] && code[i..][1..] == code[i + 1..];
      assert code[i + 1..i + 1] == "";
      var c := code[i];
      if esc {
        esc := false;
      } else if c == '\\' {
        esc := true;
      } else if c == '(' || c == ',' {
        if depth <= 0 {
          var pushed := PushLabel(types, stack, code[pos..i]);
          if pushed.Raise? { return pushed; }
          stack, pos := pushed.value, i + 1;
        }
        if c == '(' { depth := depth + 1; }
      } else if c == ')' {
        depth := depth - 1;
        if depth <= 0 {
          if !TakesArgs(stack) { return Raise(FollowsNonFunction); }
          var args := CompileExpression(types, code[pos..i]);
          if args.Raise? { return args; }
          stack, pos := stack[..|stack| - 1] + [Args(args.value)], i + 1;
        }
      }
    }
    return Ok(stack);
  }

  // ---- Printing -------------------------------------------------------------------------------

  datatype Tree =
    | Number(text: string)
    | Quoted(quote: char, text: string)
    | Type(name: string)
    | Call(name: string, args: seq<Tree>)

  predicate IsSpecial(c: char) { c == '\\' || c == '(' || c == ')' || c == ',' }

  /** A backslash before every comma, parenthesis and backslash. */
  function Escape(s: string): string {
    if s == "" then "" else (if IsSpecial(s[0]) then ['\\', s[0]] else [s[0]]) + Escape(s[1..])
  }

  function Token(t: Tree): string {
    match t
    case Number(text) => text
    case Quoted(quote, text) => [quote] + text + [quote]
    case Type(name) => name
    case Call(name, _) => name
  }

  function Print(t: Tree, gap: string): string {
    Escape(Token(t)) + if t.Call? then "(" + PrintAll(t.args, gap) + ")" else ""
  }

  /** Comma separated, with the same blanks before every item. */
  function PrintAll(ts: seq<Tree>, gap: string): string {
    if ts == [] then ""
    else gap + Print(ts[0], gap) + if |ts| == 1 then "" else "," + PrintAll(ts[1..], gap)
  }

  /** One slot for a literal, two for a type. */
  function Encode(t: Tree): seq<Entry> {
    match t
    case Number(text) => [Num(if IsDecimal(text) then DecimalValue(text) else 0.0)]
    case Quoted(_, text) => [Text(text)]
    case Type(name) => [Fn(name), NoArgs]
    case Call(name, args) => [Fn(name), Args(EncodeAll(args))]
  }

  function EncodeAll(ts: seq<Tree>): seq<Entry> {
    if ts == [] then [] else Encode(ts[0]) + EncodeAll(ts[1..])
  }

  predicate IsTypeName(types: set<string>, name: string) {
    name != "" && name in types && Strip(name) == name && !IsDecimal(name) && !IsQuoted(name)
  }

  predicate WellFormed(types: set<string>, t: Tree) {
    match t
    case Number(text) => IsDecimal(text)
    case Quoted(_, _) => IsQuoted(Token(t))
    case Type(name) => IsTypeName(types, name)
    case Call(name, args) => IsTypeName(types, name) && forall a :: a in args ==> WellFormed(types, a)
  }

  predicate IsGap(gap: string) { forall c :: c in gap ==> c == ' ' || c == '\t' }

  // ---- compile undoes printing ------------------------------------------------------------------

  lemma {:induction false} UnescapeEscape(s: string)
    ensures Unescape(Escape(s)) == s
  {
    if s != "" {
      var e := Escape(s);
      assert e[1..] == if IsSpecial(s[0]) then [s[0]] + Escape(s[1..]) else Escape(s[1..]);
      if IsSpecial(s[0]) { assert e[2..] == Escape(s[1..]); }
      UnescapeEscape(s[1..]);
    }
  }

  lemma {:induction false} UnescapeGap(gap: string, s: string)
    requires IsGap(gap)
    ensures Unescape(gap + s) == gap + Unescape(s) && StripLeft(gap + s) == StripLeft(s)
  {
    if gap == "" {
      assert gap + s == s;
    } else {
      assert gap[0] in gap && (gap + s)[1..] == gap[1..] + s && forall c :: c in gap[1..] ==> c in gap;
      UnescapeGap(gap[1..], s);
    }
  }

  lemma TrimTrimmed(s: string)
    requires s != "" && !IsBlank(s[0]) && !IsBlank(s[|s| - 1])
    ensures Strip(s) == s
  {
  }

  lemma DecimalTrimmed(s: string)
    requires IsDecimal(s)
    ensures s != "" && !IsBlank(s[0]) && !IsBlank(s[|s| - 1])
  {
    var u := Unsigned(s);
    var k := PointAt(u);
    PointIsPoint(u);
    DigitsAtEnds(u, k);
    hide PointAt, Fraction, IsDecimal;
    assert u != "" && u[|u| - 1] == s[|s| - 1];
    assert s[0] != '-' && s[0] != '+' ==> s[0] == u[0];
  }

  /** Digits around a point begin and end with digits or the point. */
  lemma DigitsAtEnds(u: string, k: nat)
    requires k <= |u| && AllDigits(u[..k]) && (k < |u| ==> u[k] == '.' && AllDigits(u[k + 1..])) && (k > 0 || |u| > 1)
    ensures (IsDigit(u[0]) || u[0] == '.') && (IsDigit(u[|u| - 1]) || u[|u| - 1] == '.')
  {
    if k > 0 { assert u[0] == u[..k][0] && u[0] in u[..k]; }
    if k == |u| { assert u[|u| - 1] == u[..k][k - 1] && u[|u| - 1] in u[..k]; }
    else if k + 1 < |u| {
      var f := u[k + 1..];
      assert u[|u| - 1] == f[|f| - 1] && f[|f| - 1] in f;
    }
  }

  lemma {:induction false} PointIsPoint(s: string)
    ensures PointAt(s) < |s| ==> s[PointAt(s)] == '.'
  {
    if s != "" && s[0] != '.' { PointIsPoint(s[1..]); }
  }

  /** The text of a token, however many blanks come before it, adds the token's slots. */
  lemma TokenPushed(types: set<string>, stack: seq<Entry>, gap: string, t: Tree)
    requires WellFormed(types, t) && IsGap(gap)
    ensures PushLabel(types, stack, gap + Escape(Token(t))) ==
              Ok(stack + if t.Call? then [Fn(t.name), NoArgs] else Encode(t))
  {
    var token := Token(t);
    UnescapeGap(gap, Escape(token));
    UnescapeGap(gap, token);
    UnescapeEscape(token);
    assert token != "" && Strip(token) == token by {
      if t.Number? { DecimalTrimmed(token); TrimTrimmed(token); }
      if t.Quoted? { TrimTrimmed(token); }
    }
    assert Escape(token) != "" && gap + Escape(token) != "";
    if t.Quoted? {
      assert token[1..|token| - 1] == t.text;
      DecimalStart(token);
    }
  }

  lemma DecimalStart(s: string)
    ensures IsDecimal(s) ==> s != "" && (IsDigit(s[0]) || s[0] == '-' || s[0] == '+' || s[0] == '.')
  {
    var u := Unsigned(s);
    PointIsPoint(u);
    if IsDecimal(s) && PointAt(u) > 0 { assert u[0] in u[..PointAt(u)]; }
  }

  /** Escaped text has no delimiters: the scanner only collects it. */
  lemma {:induction false} RunEscaped(types: set<string>, st: Scan, s: string, rest: string, n: nat)
    requires !st.esc && rest != "" && Pending(st, Escape(s) + rest, n)
    ensures Pending(st.(cur := st.cur + Escape(s)), rest, n)
    ensures Run(types, st, Escape(s) + rest, n) == Run(types, st.(cur := st.cur + Escape(s)), rest, n)
    decreases s
  {
    hide Run, PushLabel;
    var e := Escape(s);
    if s == "" {
      assert e + rest == rest && st.cur + e == st.cur;
    } else {
      var head, tail := if IsSpecial(s[0]) then ['\\', s[0]] else [s[0]], Escape(s[1..]);
      assert e + rest == head + (tail + rest);
      RunHead(types, st, head, tail + rest, n);
      RunEscaped(types, st.(cur := st.cur + head), s[1..], rest, n);
      assert st.cur + head + tail == st.cur + e;
    }
  }

  /** One character of escaped text. */
  lemma RunHead(types: set<string>, st: Scan, head: string, rest: string, n: nat)
    requires !st.esc && rest != "" && Pending(st, head + rest, n)
    requires (|head| == 1 && !IsSpecial(head[0])) || (|head| == 2 && head[0] == '\\')
    ensures Pending(st.(cur := st.cur + head), rest, n)
    ensures Run(types, st, head + rest, n) == Run(types, st.(cur := st.cur + head), rest, n)
  {
    var input := head + rest;
    if |head| == 1 {
      assert input[0] == head[0] && input[1..] == rest && [input[0]] == head;
    } else {
      var second := input[1..];
      assert input[0] == head[0] && second[0] == head[1] && second[1..] == rest;
      assert st.cur + [input[0]] + [second[0]] == st.cur + head;
    }
  }

  lemma {:induction false} EscapeGap(gap: string)
    requires IsGap(gap)
    ensures Escape(gap) == gap
  {
    if gap != "" {
      assert gap[0] in gap && forall c :: c in gap[1..] ==> c in gap;
      EscapeGap(gap[1..]);
    }
  }

  /** Inside parentheses the scanner only collects x, whatever follows. */
  ghost predicate Collects(types: set<string>, st: Scan, x: string, rest: string, n: nat) {
    !st.esc && st.depth > 0 && rest != "" && Pending(st, x + rest, n) ==>
      && Pending(st.(cur := st.cur + x), rest, n)
      && Run(types, st, x + rest, n) == Run(types, st.(cur := st.cur + x), rest, n)
  }

  ghost predicate Inert(x: string) {
    forall types, st, rest, n {:trigger Collects(types, st, x, rest, n)} :: Collects(types, st, x, rest, n)
  }

  lemma InertEscaped(s: string)
    ensures Inert(Escape(s))
  {
    forall types, st, rest, n ensures Collects(types, st, Escape(s), rest, n) {
      if !st.esc && rest != "" && Pending(st, Escape(s) + rest, n) { RunEscaped(types, st, s, rest, n); }
    }
  }

  lemma InertConcat(a: string, b: string)
    requires Inert(a) && Inert(b)
    ensures Inert(a + b)
  {
    forall types, st, rest, n ensures Collects(types, st, a + b, rest, n) {
      assert a + b + rest == a + (b + rest) && st.cur + (a + b) == st.cur + a + b;
      assert Collects(types, st, a, b + rest, n) && Collects(types, st.(cur := st.cur + a), b, rest, n);
    }
  }

  lemma InertComma()
    ensures Inert(",")
  {
    forall types, st, rest, n ensures Collects(types, st, ",", rest, n) {
      assert ("," + rest)[1..] == rest;
    }
  }

  lemma InertParens(x: string)
    requires Inert(x)
    ensures Inert("(" + x + ")")
  {
    forall types, st, rest, n ensures Collects(types, st, "(" + x + ")", rest, n) {
      var st1 := Scan(st.cur + "(", false, st.depth + 1, st.stack);
      assert "(" + x + ")" + rest == "(" + (x + (")" + rest)) && ("(" + (x + (")" + rest)))[1..] == x + (")" + rest);
      assert Collects(types, st1, x, ")" + rest, n);
      assert (")" + rest)[1..] == rest && st1.cur + x + ")" == st.cur + ("(" + x + ")");
    }
  }

  lemma {:induction false} PrintInert(t: Tree, gap: string)
    requires IsGap(gap)
    ensures Inert(Print(t, gap))
    decreases t, 0
  {
    InertEscaped(Token(t));
    if t.Call? {
      PrintAllInert(t.args, gap);
      InertParens(PrintAll(t.args, gap));
      InertConcat(Escape(Token(t)), "(" + PrintAll(t.args, gap) + ")");
    } else {
      assert Print(t, gap) == Escape(Token(t));
    }
  }

  lemma {:induction false} PrintAllInert(ts: seq<Tree>, gap: string)
    requires IsGap(gap)
    ensures Inert(PrintAll(ts, gap))
    decreases ts, 1
  {
    if ts == [] {
      InertEscaped("");
    } else {
      EscapeGap(gap);
      InertEscaped(gap);
      PrintInert(ts[0], gap);
      InertConcat(gap, Print(ts[0], gap));
      var item := gap + Print(ts[0], gap);
      if |ts| == 1 {
        assert PrintAll(ts, gap) == item;
      } else {
        PrintAllInert(ts[1..], gap);
        InertComma();
        InertConcat(",", PrintAll(ts[1..], gap));
        InertConcat(item, "," + PrintAll(ts[1..], gap));
      }
    }
  }

  /** A leaf and its comma at the top level. */
  lemma RunLeaf(types: set<string>, stack: seq<Entry>, e: string, pushed: seq<Entry>, rest: string, n: nat)
    requires PushLabel(types, stack, e) == Ok(pushed)
    requires Pending(Scan(e, false, 0, stack), "," + rest, n)
    ensures Pending(Scan("", false, 0, pushed), rest, n)
    ensures Run(types, Scan(e, false, 0, stack), "," + rest, n) == Run(types, Scan("", false, 0, pushed), rest, n)
  {
    assert ("," + rest)[1..] == rest;
  }

  lemma RunOpen(types: set<string>, stack: seq<Entry>, e: string, pushed: seq<Entry>, rest: string, n: nat)
    requires PushLabel(types, stack, e) == Ok(pushed) && Pending(Scan(e, false, 0, stack), "(" + rest, n)
    ensures rest != "" ==> Pending(Scan("", false, 1, pushed), rest, n)
    ensures rest != "" ==> Run(types, Scan(e, false, 0, stack), "(" + rest, n) == Run(types, Scan("", false, 1, pushed), rest, n)
  {
    assert ("(" + rest)[1..] == rest;
  }

  lemma RunClose(types: set<string>, stack: seq<Entry>, name: string, inner: string, args: seq<Entry>, rest: string, n: nat)
    requires Compile(types, inner) == Ok(args) && rest != ""
    requires Pending(Scan(inner, false, 1, stack + [Fn(name), NoArgs]), ")" + rest, n)
    ensures Pending(Scan("", false, 0, stack + [Fn(name), Args(args)]), rest, n)
    ensures Run(types, Scan(inner, false, 1, stack + [Fn(name), NoArgs]), ")" + rest, n) ==
            Run(types, Scan("", false, 0, stack + [Fn(name), Args(args)]), rest, n)
  {
    var pushed := stack + [Fn(name), NoArgs];
    assert (")" + rest)[1..] == rest;
    assert pushed[..|pushed| - 1] + [Args(args)] == stack + [Fn(name), Args(args)];
  }

  /** A type with its argument list and the comma behind it at the top level. */
  lemma RunCall(types: set<string>, stack: seq<Entry>, e: string, name: string, inner: string, args: seq<Entry>,
                rest: string, n: nat)
    requires PushLabel(types, stack, e) == Ok(stack + [Fn(name), NoArgs])
    requires Inert(inner) && Compile(types, inner) == Ok(args)
    requires Pending(Scan(e, false, 0, stack), "(" + (inner + (")" + ("," + rest))), n)
    ensures Pending(Scan("", false, 0, stack + [Fn(name), Args(args)]), rest, n)
    ensures Run(types, Scan(e, false, 0, stack), "(" + (inner + (")" + ("," + rest))), n) ==
            Run(types, Scan("", false, 0, stack + [Fn(name), Args(args)]), rest, n)
  {
    var comma := "," + rest;
    RunOpen(types, stack, e, stack + [Fn(name), NoArgs], inner + (")" + comma), n);
    RunInner(types, stack + [Fn(name), NoArgs], inner, comma, n);
    RunClose(types, stack, name, inner, args, comma, n);
    RunLeaf(types, stack + [Fn(name), Args(args)], "", stack + [Fn(name), Args(args)], rest, n);
  }

  lemma RunInner(types: set<string>, stack: seq<Entry>, inner: string, rest: string, n: nat)
    requires Inert(inner) && Pending(Scan("", false, 1, stack), inner + (")" + rest), n)
    ensures Pending(Scan(inner, false, 1, stack), ")" + rest, n)
    ensures Run(types, Scan("", false, 1, stack), inner + (")" + rest), n) ==
            Run(types, Scan(inner, false, 1, stack), ")" + rest, n)
  {
    assert Collects(types, Scan("", false, 1, stack), inner, ")" + rest, n) && "" + inner == inner;
  }

  /** At the top level the scanner turns x and the comma behind it into slots of the stack. */
  ghost predicate PushesAt(types: set<string>, x: string, slots: seq<Entry>, stack: seq<Entry>, rest: string, n: nat) {
    Pending(Scan("", false, 0, stack), x + ("," + rest), n) ==>
      && Pending(Scan("", false, 0, stack + slots), rest, n)
      && Run(types, Scan("", false, 0, stack), x + ("," + rest), n) == Run(types, Scan("", false, 0, stack + slots), rest, n)
  }

  ghost predicate Pushes(types: set<string>, x: string, slots: seq<Entry>) {
    forall stack, rest, n {:trigger PushesAt(types, x, slots, stack, rest, n)} :: PushesAt(types, x, slots, stack, rest, n)
  }

  lemma PushesPair(types: set<string>, a: string, sa: seq<Entry>, b: string, sb: seq<Entry>)
    requires Pushes(types, a, sa) && Pushes(types, b, sb)
    ensures Pushes(types, a + "," + b, sa + sb)
  {
    forall stack, rest, n ensures PushesAt(types, a + "," + b, sa + sb, stack, rest, n) {
      assert a + "," + b + ("," + rest) == a + ("," + (b + ("," + rest)));
      assert PushesAt(types, a, sa, stack, b + ("," + rest), n) && PushesAt(types, b, sb, stack + sa, rest, n);
      assert stack + sa + sb == stack + (sa + sb);
    }
  }

  lemma PushesLeaf(types: set<string>, gap: string, t: Tree)
    requires WellFormed(types, t) && IsGap(gap) && !t.Call?
    ensures Pushes(types, gap + Escape(Token(t)), Encode(t))
  {
    forall stack, rest, n ensures PushesAt(types, gap + Escape(Token(t)), Encode(t), stack, rest, n) {
      if Pending(Scan("", false, 0, stack), gap + Escape(Token(t)) + ("," + rest), n) {
        RunToken(types, stack, gap, t, "," + rest, n);
        RunLeaf(types, stack, gap + Escape(Token(t)), stack + Encode(t), rest, n);
      }
    }
  }

  lemma CallText(e: string, inner: string, rest: string)
    ensures e + ("(" + inner + ")") + ("," + rest) == e + ("(" + (inner + (")" + ("," + rest))))
  {
  }

  lemma PushesCall(types: set<string>, gap: string, t: Tree, inner: string, args: seq<Entry>)
    requires WellFormed(types, t) && IsGap(gap) && t.Call? && Inert(inner) && Compile(types, inner) == Ok(args)
    ensures Pushes(types, gap + Escape(Token(t)) + ("(" + inner + ")"), [Fn(t.name), Args(args)])
  {
    var e, call := gap + Escape(Token(t)), "(" + inner + ")";
    forall stack, rest, n ensures PushesAt(types, e + call, [Fn(t.name), Args(args)], stack, rest, n) {
      var tail := "(" + (inner + (")" + ("," + rest)));
      CallText(e, inner, rest);
      if Pending(Scan("", false, 0, stack), e + tail, n) {
        RunToken(types, stack, gap, t, tail, n);
        RunCall(types, stack, e, t.name, inner, args, rest, n);
      }
    }
  }

  /** The token of an item is collected and stands for its slots. */
  lemma RunToken(types: set<string>, stack: seq<Entry>, gap: string, t: Tree, rest: string, n: nat)
    requires WellFormed(types, t) && IsGap(gap) && rest != ""
    requires Pending(Scan("", false, 0, stack), gap + Escape(Token(t)) + rest, n)
    ensures var e := gap + Escape(Token(t));
            && Pending(Scan(e, false, 0, stack), rest, n)
            && Run(types, Scan("", false, 0, stack), e + rest, n) == Run(types, Scan(e, false, 0, stack), rest, n)
            && PushLabel(types, stack, e) == Ok(stack + if t.Call? then [Fn(t.name), NoArgs] else Encode(t))
  {
    hide Run, PushLabel, IsGap;
    var token := Escape(Token(t));
    EscapeGap(gap);
    assert gap + token + rest == gap + (token + rest) && "" + gap == gap;
    RunEscaped(types, Scan("", false, 0, stack), gap, token + rest, n);
    RunEscaped(types, Scan(gap, false, 0, stack), Token(t), rest, n);
    TokenPushed(types, stack, gap, t);
  }

  lemma PrintSplit(t: Tree, gap: string)
    ensures t.Call? ==> gap + Print(t, gap) == gap + Escape(Token(t)) + ("(" + PrintAll(t.args, gap) + ")")
    ensures !t.Call? ==> gap + Print(t, gap) == gap + Escape(Token(t))
  {
    hide Escape, Token, PrintAll;
    if t.Call? {
      var token, args := Escape(Token(t)), "(" + PrintAll(t.args, gap) + ")";
      assert Print(t, gap) == token + args;
      assert gap + (token + args) == gap + token + args;
    }
  }

  lemma {:induction false} PushesItem(types: set<string>, t: Tree, gap: string)
    requires WellFormed(types, t) && IsGap(gap)
    ensures Pushes(types, gap + Print(t, gap), Encode(t))
    decreases t, 1
  {
    PrintSplit(t, gap);
    if t.Call? {
      PrintAllInert(t.args, gap);
      CompileUndoesPrint(types, t.args, gap);
      PushesCall(types, gap, t, PrintAll(t.args, gap), EncodeAll(t.args));
    } else {
      PushesLeaf(types, gap, t);
    }
  }

  lemma {:induction false} PushesAll(types: set<string>, ts: seq<Tree>, gap: string)
    requires (forall t :: t in ts ==> WellFormed(types, t)) && IsGap(gap) && ts != []
    ensures Pushes(types, PrintAll(ts, gap), EncodeAll(ts))
    decreases ts, 2
  {
    var item := gap + Print(ts[0], gap);
    PushesItem(types, ts[0], gap);
    if |ts| == 1 {
      assert PrintAll(ts, gap) == item && EncodeAll(ts[1..]) == [] && Encode(ts[0]) + [] == Encode(ts[0]);
    } else {
      PushesAll(types, ts[1..], gap);
      PushesPair(types, item, Encode(ts[0]), PrintAll(ts[1..], gap), EncodeAll(ts[1..]));
      assert PrintAll(ts, gap) == item + "," + PrintAll(ts[1..], gap);
    }
  }

  /** Compiling the printed form of any well-formed expression gives its stack encoding. */
  lemma {:induction false} CompileUndoesPrint(types: set<string>, ts: seq<Tree>, gap: string)
    requires (forall t :: t in ts ==> WellFormed(types, t)) && IsGap(gap)
    ensures Compile(types, PrintAll(ts, gap)) == Ok(EncodeAll(ts))
    decreases ts, 3
  {
    var code := PrintAll(ts, gap);
    assert Compile(types, code) == Run(types, Scan("", false, 0, []), code + ",", |code|);
    hide PushLabel;
    if ts == [] {
      assert code + "," == "," && ","[1..] == "";
    } else {
      PushesAll(types, ts, gap);
      assert "," + "" == ",";
      assert PushesAt(types, code, EncodeAll(ts), [], "", |code|);
      assert [] + EncodeAll(ts) == EncodeAll(ts);
    }
  }

  // ---- The shape of compiled stacks ---------------------------------------------------------------

  /** Literals take one slot; every type is followed by its arguments, if any. */
  predicate Shaped(es: seq<Entry>)
    decreases es
  {
    if es == [] then true
    else match es[0]
      case Num(_) => Shaped(es[1..])
      case Text(_) => Shaped(es[1..])
      case Fn(_) =>
        && |es| >= 2 && Shaped(es[2..])
        && (es[1].NoArgs? || (es[1].Args? && Shaped(es[1].entries)))
      case _ => false
  }

  lemma {:induction false} ShapedConcat(a: seq<Entry>, b: seq<Entry>)
    requires Shaped(a) && Shaped(b)
    ensures Shaped(a + b)
    decreases |a|
  {
    if a == [] {
      assert a + b == b;
    } else if a[0].Fn? {
      assert (a + b)[2..] == a[2..] + b;
      ShapedConcat(a[2..], b);
    } else {
      assert (a + b)[1..] == a[1..] + b;
      ShapedConcat(a[1..], b);
    }
  }

  lemma {:induction false} ShapedWithArgs(stack: seq<Entry>, args: seq<Entry>)
    requires Shaped(stack) && TakesArgs(stack) && Shaped(args)
    ensures Shaped(stack[..|stack| - 1] + [Args(args)])
    decreases |stack|
  {
    var r := stack[..|stack| - 1] + [Args(args)];
    var k := if stack[0].Fn? then 2 else 1;
    if |stack| > 2 {
      assert TakesArgs(stack[k..]) by { assert stack[k - 1] != stack[|stack| - 2] || |stack| > k + 1; }
      assert r[k..] == stack[k..][..|stack[k..]| - 1] + [Args(args)];
      ShapedWithArgs(stack[k..], args);
    }
  }

  lemma StillPending(st: Scan, input: string, n: nat, keep: Scan, rest: string)
    requires Pending(st, input, n) && input != "" && keep == st.(cur := st.cur + [input[0]]) && rest == input[1..]
    ensures forall esc, depth, stack :: Pending(Scan(keep.cur, esc, depth, stack), rest, n)
    ensures forall depth, stack :: Pending(Scan("", false, depth, stack), rest, n)
    ensures input[0] != ',' ==> |st.cur| < n && Pending(Scan("", false, 0, []), st.cur + ",", |st.cur|)
  {
  }

  /** A label adds a literal or a type that still takes arguments. */
  lemma PushShaped(types: set<string>, stack: seq<Entry>, cur: string)
    requires Shaped(stack) && PushLabel(types, stack, cur).Ok?
    ensures Shaped(PushLabel(types, stack, cur).value)
  {
    hide IsDecimal, DecimalValue, IsQuoted;
    var pushed := PushLabel(types, stack, cur).value;
    if pushed != stack { ShapedConcat(stack, pushed[|stack|..]); }
  }

  lemma {:induction false} RunShaped(types: set<string>, st: Scan, input: string, n: nat)
    requires Pending(st, input, n) && Shaped(st.stack)
    ensures var r := Run(types, st, input, n); r.Ok? ==> Shaped(r.value)
    decreases n, |input|
  {
    if input == "" {
    } else {
      assert Shaped([]);
      hide Shaped, PushLabel, Pending, TakesArgs;
      var c, rest, keep := input[0], input[1..], st.(cur := st.cur + [input[0]]);
      StillPending(st, input, n, keep, rest);
      if st.esc { RunShaped(types, keep.(esc := false), rest, n); }
      else if c == '\\' { RunShaped(types, keep.(esc := true), rest, n); }
      else if c == '(' || c == ',' {
        var depth := if c == '(' then st.depth + 1 else st.depth;
        if st.depth > 0 { RunShaped(types, keep.(depth := depth), rest, n); }
        else {
          var pushed := PushLabel(types, st.stack, st.cur);
          if pushed.Ok? {
            PushShaped(types, st.stack, st.cur);
            RunShaped(types, Scan("", false, depth, pushed.value), rest, n);
          }
        }
      } else if c == ')' {
        if st.depth > 1 { RunShaped(types, keep.(depth := st.depth - 1), rest, n); }
        else if TakesArgs(st.stack) {
          RunShaped(types, Scan("", false, 0, []), st.cur + ",", |st.cur|);
          var args := Compile(types, st.cur);
          if args.Ok? {
            ShapedWithArgs(st.stack, args.value);
            RunShaped(types, Scan("", false, st.depth - 1, st.stack[..|st.stack| - 1] + [Args(args.value)]), rest, n);
          }
        }
      } else { RunShaped(types, keep, rest, n); }
    }
  }

  /** Whatever text compiles, the stack has the shape that the evaluators walk. */
  lemma CompileShaped(types: set<string>, code: string)
    ensures Compile(types, code).Ok? ==> Shaped(Compile(types, code).value)
  {
    RunShaped(types, Scan("", false, 0, []), code + ",", |code|);
  }
}
