/** The templates of the firewall pages: the engine renders every template printed from a tree as the tree says. */
module Templates {
  import opened Common
  import opened Strings

  // Templates have the expressions "%{name}", "%{name?then:else}" and "%{name#body}", nested in any
  // way, with backslashes before characters that are not meant as such.

  // ---- Values ---------------------------------------------------------------------------------

  /** Numbers appear as their text; an undefined property reads as Null. */
  datatype Value = Null | Bool(b: bool) | Str(text: string) | List(items: seq<Value>) | Obj(fields: map<string, Value>)

  type Fields = map<string, Value>

  /** A list has a property for each position and one for its length. */
  function ItemAt(items: seq<Value>, name: string): Value {
    if name == "length" then Str(NatStr(|items|))
    else if name != "" && AllDigits(name) && NatOf(name) < |items| && NatStr(NatOf(name)) == name then items[NatOf(name)]
    else Null
  }

  function WalkNames(v: Value, names: seq<string>): Value
    decreases |names|
  {
    if names == [] then v
    else match v
      case Obj(fields) => WalkNames(if names[0] in fields then fields[names[0]] else Null, names[1..])
      case List(items) => WalkNames(ItemAt(items, names[0]), names[1..])
      case _ => Null
  }

  function Get(args: Fields, key: string): Value { WalkNames(Obj(args), Split(Trim(key), '.')) }

  predicate IsSet(v: Value) {
    match v
    case Null => false
    case Bool(b) => b
    case Str(text) => text != ""
    case List(items) => items != []
    case Obj(fields) => fields != map[]
  }

  function StringOf(v: Value): string {
    match v
    case Null => "null"
    case Bool(b) => if b then "true" else "false"
    case Str(text) => text
    case List(items) => JoinValues(items)
    case Obj(_) => "[object Object]"
  }

  /** The text of a list: the texts of its items between commas, with nothing for Null. */
  function JoinValues(items: seq<Value>): string {
    if items == [] then ""
    else (if items[0].Null? then "" else StringOf(items[0])) + if |items| == 1 then "" else "," + JoinValues(items[1..])
  }

  /** The words between runs of white space. */
  function SplitSpace(s: string): (parts: seq<string>)
    ensures parts != []
    decreases |s|
  {
    if s == "" then [""]
    else if IsSpace(s[0]) then [""] + SplitSpace(TrimLeft(s[1..]))
    else var rest := SplitSpace(s[1..]); [[s[0]] + rest[0]] + rest[1..]
  }

  function Strs(words: seq<string>): (items: seq<Value>)
    ensures |items| == |words|
  {
    if words == [] then [] else [Str(words[0])] + Strs(words[1..])
  }

  function ToArray(v: Value): seq<Value> {
    match v
    case Null => []
    case List(items) => items
    case Obj(_) => [v]
    case _ => var s := Trim(StringOf(v)); if s == "" then [] else Strs(SplitSpace(s))
  }

  /** What the body of a loop sees for item k. */
  function ItemArgs(args: Fields, items: seq<Value>, k: nat): Fields
    requires k < |items|
  {
    args["first" := Bool(k == 0)]["next" := Bool(k > 0)]["last" := Bool(k + 1 == |items|)]["item" := items[k]]
  }

  // ---- The inner scanner ----------------------------------------------------------------------

  /** `cur` is the text since the last delimiter that counted. */
  datatype Inner = Inner(cur: string, nest: nat, esc: bool, pieces: seq<string>)

  datatype Scanned = Closed(pieces: seq<string>, rest: string) | Unclosed(pieces: seq<string>)

  predicate IsDelimiter(c: char) { c == '?' || c == ':' || c == '#' }

  function TotalLength(pieces: seq<string>): nat {
    if pieces == [] then 0 else TotalLength(pieces[..|pieces| - 1]) + |pieces[|pieces| - 1]|
  }

  /** Text after the opening brace, up to the matching closing brace. */
  function ScanInner(st: Inner, input: string): (r: Scanned)
    requires st.nest > 0
    decreases |input|
  {
    if input == "" then Unclosed(st.pieces)
    else
      var c, rest, keep := input[0], input[1..], st.(cur := st.cur + [input[0]]);
      if st.esc then ScanInner(keep.(esc := false), rest)
      else if c == '\\' then ScanInner(keep.(esc := true), rest)
      else if c == '{' then ScanInner(keep.(nest := st.nest + 1), rest)
      else if c == '}' then
        if st.nest == 1 then Closed(st.pieces + [st.cur], rest) else ScanInner(keep.(nest := st.nest - 1), rest)
      else if IsDelimiter(c) && st.nest == 1 then ScanInner(Inner("", 1, false, st.pieces + [st.cur] + [[c]]), rest)
      else ScanInner(keep, rest)
  }

  /** A single delimiter follows the name. */
  predicate HasDelimiter(pieces: seq<string>) { |pieces| >= 2 ==> |pieces[1]| == 1 }

  lemma TotalPush(pieces: seq<string>, p: string)
    ensures TotalLength(pieces + [p]) == TotalLength(pieces) + |p|
  {
    assert (pieces + [p])[..|pieces|] == pieces;
  }

  lemma {:induction false} TotalPrefix(pieces: seq<string>, k: nat)
    requires k <= |pieces|
    ensures TotalLength(pieces[..k]) <= TotalLength(pieces)
    decreases |pieces|
  {
    if k < |pieces| {
      TotalPrefix(pieces[..|pieces| - 1], k);
      assert pieces[..|pieces| - 1][..k] == pieces[..k];
    } else {
      assert pieces[..k] == pieces;
    }
  }

  lemma PushPair(pieces: seq<string>, cur: string, c: char)
    requires HasDelimiter(pieces) && |pieces| != 1
    ensures HasDelimiter(pieces + [cur] + [[c]])
    ensures TotalLength(pieces + [cur] + [[c]]) == TotalLength(pieces) + |cur| + 1
  {
    TotalPush(pieces, cur);
    TotalPush(pieces + [cur], [c]);
  }

  /** Nothing is lost: the pieces, the closing brace and the rest make up the input. */
  lemma {:induction false} ScanLengths(st: Inner, input: string)
    requires st.nest > 0 && HasDelimiter(st.pieces) && |st.pieces| != 1
    ensures var r := ScanInner(st, input);
            r.Closed? ==> HasDelimiter(r.pieces) && r.pieces != [] &&
                          TotalLength(r.pieces) + |r.rest| + 1 == TotalLength(st.pieces) + |st.cur| + |input|
    decreases |input|
  {
    if input != "" {
      var c, rest, keep := input[0], input[1..], st.(cur := st.cur + [input[0]]);
      if st.esc { ScanLengths(keep.(esc := false), rest); }
      else if c == '\\' { ScanLengths(keep.(esc := true), rest); }
      else if c == '{' { ScanLengths(keep.(nest := st.nest + 1), rest); }
      else if c == '}' {
        if st.nest == 1 { TotalPush(st.pieces, st.cur); } else { ScanLengths(keep.(nest := st.nest - 1), rest); }
      } else if IsDelimiter(c) && st.nest == 1 {
        PushPair(st.pieces, st.cur, c);
        ScanLengths(Inner("", 1, false, st.pieces + [st.cur] + [[c]]), rest);
      } else { ScanLengths(keep, rest); }
    }
  }

  /** Every text that is rendered again is shorter than a text of n characters, the default branch included. */
  predicate Fits(pieces: seq<string>, n: nat) {
    (forall p :: p in pieces ==> |p| < n) && (|pieces| >= 3 ==> |Trim(pieces[0])| + 3 < n)
  }

  lemma {:induction false} PieceBound(pieces: seq<string>, i: nat)
    requires i < |pieces|
    ensures |pieces[i]| <= TotalLength(pieces)
  {
    if i + 1 == |pieces| {
    } else {
      PieceBound(pieces[..|pieces| - 1], i);
    }
  }

  lemma ScanFits(input: string, n: nat)
    requires |input| + 2 <= n
    ensures var r := ScanInner(Inner("", 1, false, []), input);
            r.Closed? ==> Fits(r.pieces, n) && |r.rest| < |input| && r.pieces != []
  {
    var r := ScanInner(Inner("", 1, false, []), input);
    ScanLengths(Inner("", 1, false, []), input);
    if r.Closed? {
      forall p | p in r.pieces ensures |p| < n {
        var i :| 0 <= i < |r.pieces| && r.pieces[i] == p;
        PieceBound(r.pieces, i);
      }
      if |r.pieces| >= 3 {
        TotalPrefix(r.pieces, 2);
        var two := r.pieces[..2];
        assert two[..1] == [r.pieces[0]] && two[1] == r.pieces[1] && [r.pieces[0]][..0] == [];
        assert TotalLength([r.pieces[0]]) == TotalLength([]) + |r.pieces[0]|;
      }
    }
  }

  // ---- The engine as functions ----------------------------------------------------------------

  /** A malformed template is handed back as it is; a malformed inner template is a type error. */
  datatype Result = Tokens(tokens: seq<string>) | Malformed | Throws

  function Fmt(text: string, args: Fields): Result
    decreases |text|, |text| + 4
  {
    Outer("", text, [], args, |text|)
  }

  function WithLiteral(tokens: seq<string>, cur: string): seq<string> {
    if cur == "" then tokens else tokens + [Unescape(cur)]
  }

  /** What an expression yields, from the text after its opening brace, and the text behind it. */
  datatype Expansion = Expansion(result: Result, rest: string)

  function Expression(input: string, args: Fields, n: nat): (e: Expansion)
    requires |input| + 2 <= n
    ensures |e.rest| <= |input|
    decreases n, 2
  {
    var scan := ScanInner(Inner("", 1, false, []), input);
    ScanFits(input, n);
    if scan.Unclosed? then Expansion(if scan.pieces == [] then Throws else Malformed, "")
    else Expansion(Expand(scan.pieces, args, n), scan.rest)
  }

  predicate Opens(input: string) { |input| > 1 && input[0] == '%' && input[1] == '{' }

  /** `cur` is the literal text since the last expression. */
  function Outer(cur: string, input: string, tokens: seq<string>, args: Fields, n: nat): Result
    requires |cur| + |input| <= n
    decreases n, |input| + 3
  {
    if input == "" then Tokens(WithLiteral(tokens, cur))
    else if Opens(input) then
      var e := Expression(input[2..], args, n);
      if e.result.Tokens? then Outer("", e.rest, WithLiteral(tokens, cur) + e.result.tokens, args, n) else e.result
    else Outer(cur + [input[0]], input[1..], tokens, args, n)
  }

  function IfSet(pieces: seq<string>, name: string): string {
    if |pieces| > 2 && pieces[2] != "" then pieces[2] else "%{" + name + "}"
  }

  function Expand(pieces: seq<string>, args: Fields, n: nat): Result
    requires Fits(pieces, n) && pieces != []
    decreases n, 1
  {
    var name := Trim(pieces[0]);
    var op1, op2 := if |pieces| > 1 then pieces[1] else "?", if |pieces| > 3 then pieces[3] else ":";
    if |pieces| > 5 || name == "" then Malformed
    else if op1 == "#" && |pieces| == 3 then Repeat(IfSet(pieces, name), args, ToArray(Get(args, name)), 0)
    else if op1 == "?" && op2 == ":" && (|pieces| == 1 || |pieces| == 3 || |pieces| == 5) then
      var v := Get(args, name);
      if |pieces| == 1 then Tokens([Unescape(if IsSet(v) then StringOf(v) else "")])
      else Nested(Fmt(if IsSet(v) then IfSet(pieces, name) else if |pieces| > 4 then pieces[4] else "", args))
    else Malformed
  }

  /** The tokens of an inner template are spread into the list; its text cannot be. */
  function Nested(r: Result): Result { if r.Malformed? then Throws else r }

  /** The body of a loop for the items from k on. */
  function Repeat(body: string, args: Fields, items: seq<Value>, k: nat): Result
    requires k <= |items|
    decreases |body|, |body| + 5 + |items| - k
  {
    if k == |items| then Tokens([])
    else
      var r := Nested(Fmt(body, ItemArgs(args, items, k)));
      if !r.Tokens? then r
      else
        var more := Repeat(body, args, items, k + 1);
        if more.Tokens? then Tokens(r.tokens + more.tokens) else more
  }

  // ---- The engine -----------------------------------------------------------------------------

  /** The loop over one expression, from the opening brace at i + 1. */
  method ScanExpression(fmtstr: string, i: nat) returns (pieces: seq<string>, j: nat, nest: nat)
    requires i + 1 < |fmtstr| && fmtstr[i + 1] == '{'
    ensures var scan := ScanInner(Inner("", 1, false, []), fmtstr[i + 2..]);
            if nest == 0 then i + 2 <= j < |fmtstr| && scan == Closed(pieces, fmtstr[j + 1..])
            else scan == Unclosed(pieces)
  {
    pieces, j, nest := [], i + 1, 0;
    var off, esc := j + 1, false;
    ghost var target := ScanInner(Inner("", 1, false, []), fmtstr[i + 2..]);
    while j < |fmtstr|
      invariant i + 1 <= j <= |fmtstr| && i + 2 <= off
      invariant j == i + 1 ==> nest == 0 && !esc && pieces == [] && off == i + 2
      invariant j > i + 1 ==> nest > 0 && off <= j
      invariant j > i + 1 ==> ScanInner(Inner(fmtstr[off..j], nest, esc, pieces), fmtstr[j..]) == target
    {
      var ch := fmtstr[j];
      assert j > i + 1 ==> fmtstr[off..j + 1] == fmtstr[off..j] + [ch];
      assert fmtstr[j..][1..] == fmtstr[j + 1..] && fmtstr[j + 1..j + 1] == "";
      if esc {
        esc := false;
      } else if ch == '\\' {
        esc := true;
      } else if ch == '{' {
        nest := nest + 1;
      } else if ch == '}' {
        nest := nest - 1;
        if nest == 0 {
          pieces := pieces + [fmtstr[off..j]];
          return;
        }
      } else if IsDelimiter(ch) && nest == 1 {
        pieces := pieces + [fmtstr[off..j]];
        pieces := pieces + [[ch]];
        off := j + 1;
      }
      j := j + 1;
    }
  }

  /** All tokens so far, with those of one more expression. */
  function WithExpansion(tokens: seq<string>, cur: string, r: Result): Result {
    if r.Tokens? then Tokens(WithLiteral(tokens, cur) + r.tokens) else r
  }

  /** One expression, and one character of literal text. */
  lemma OuterStep(cur: string, input: string, tokens: seq<string>, args: Fields, n: nat, after: string, e: Expansion)
    requires |cur| + |input| <= n && Opens(input) && after == input[2..] && e == Expression(after, args, n)
    ensures |e.rest| <= n
    ensures Outer(cur, input, tokens, args, n) == Continued(WithExpansion(tokens, cur, e.result), e.rest, args, n)
  {
  }

  function Continued(r: Result, rest: string, args: Fields, n: nat): Result
    requires |rest| <= n
    decreases n, |rest| + 4
  {
    if r.Tokens? then Outer("", rest, r.tokens, args, n) else r
  }

  lemma Slices(s: string, last: nat, i: nat)
    requires last <= i < |s|
    ensures s[last..i + 1] == s[last..i] + [s[i]] && s[i..][1..] == s[i + 1..] && s[i..][0] == s[i]
    ensures |s| > i + 1 ==> s[i..][2..] == s[i + 2..]
  {
  }

  lemma OuterCollect(cur: string, input: string, tokens: seq<string>, args: Fields, n: nat, longer: string, rest: string)
    requires |cur| + |input| <= n && input != "" && !Opens(input) && rest == input[1..] && longer == cur + [input[0]]
    ensures Outer(cur, input, tokens, args, n) == Outer(longer, rest, tokens, args, n)
  {
  }

  /** Adds the literal text from `last` to i and the expression at i to the tokens. */
  method RenderNext(fmtstr: string, last: nat, i: nat, tokens0: seq<string>, args: Fields, ghost e: Expansion)
      returns (r: Result, next: nat)
    requires last <= i && i + 1 < |fmtstr| && Opens(fmtstr[i..])
    requires e == Expression(fmtstr[i + 2..], args, |fmtstr|)
    ensures r == WithExpansion(tokens0, fmtstr[last..i], e.result)
    ensures r.Tokens? ==> i < next <= |fmtstr| && fmtstr[next..] == e.rest
    decreases |fmtstr|, 1
  {
    var tokens := tokens0;
    if i > last { tokens := tokens + [Unescape(fmtstr[last..i])]; }
    assert tokens == WithLiteral(tokens0, fmtstr[last..i]);
    var subexpr, j, nest := ScanExpression(fmtstr, i);
    ScanFits(fmtstr[i + 2..], |fmtstr|);
    if subexpr == [] { return Throws, j; }
    if nest != 0 { return Malformed, j; }
    var expanded := ExpandPieces(subexpr, args, |fmtstr|);
    if !expanded.Tokens? { return expanded, j; }
    return Tokens(tokens + expanded.tokens), j + 1;
  }

  method Format(fmtstr: string, args: Fields) returns (r: Result)
    ensures r == Fmt(fmtstr, args)
    decreases |fmtstr|, 2
  {
    var tokens: seq<string> := [];
    var i, last, n := 0, 0, |fmtstr|;
    ghost var cur, input := "", fmtstr;
    while i < n
      invariant 0 <= last <= i <= n && cur == fmtstr[last..i] && input == fmtstr[i..]
      invariant Outer(cur, input, tokens, args, n) == Fmt(fmtstr, args)
    {
      if Opens(fmtstr[i..]) {
        Slices(fmtstr, last, i);
        ghost var e := Expression(fmtstr[i + 2..], args, n);
        OuterStep(cur, input, tokens, args, n, fmtstr[i + 2..], e);
        var rendered, next := RenderNext(fmtstr, last, i, tokens, args, e);
        if !rendered.Tokens? { return rendered; }
        tokens, last, i := rendered.tokens, next, next;
        cur, input := "", fmtstr[i..];
      } else {
        Slices(fmtstr, last, i);
        OuterCollect(cur, input, tokens, args, n, fmtstr[last..i + 1], fmtstr[i + 1..]);
        i := i + 1;
        cur, input := fmtstr[last..i], fmtstr[i..];
      }
    }
    if n > last { tokens := tokens + [Unescape(fmtstr[last..n])]; }
    return Tokens(tokens);
  }

  method ExpandPieces(subexpr: seq<string>, args: Fields, n: nat) returns (r: Result)
    requires Fits(subexpr, n) && subexpr != []
    ensures r == Expand(subexpr, args, n)
    decreases n, 0
  {
    var varname := Trim(subexpr[0]);
    var op1, ifSet := if |subexpr| > 1 then subexpr[1] else "?", IfSet(subexpr, varname);
    var op2, ifUnset := if |subexpr| > 3 then subexpr[3] else ":", if |subexpr| > 4 then subexpr[4] else "";
    if |subexpr| > 5 || varname == "" {
      return Malformed;
    } else if op1 == "#" && |subexpr| == 3 {
      var items, tokens := ToArray(Get(args, varname)), [];
      for k := 0 to |items|
        invariant Prepended(tokens, Repeat(ifSet, args, items, k)) == Repeat(ifSet, args, items, 0)
      {
        var inner := Format(ifSet, ItemArgs(args, items, k));
        if inner.Malformed? { return Throws; }
        if inner.Throws? { return Throws; }
        RepeatStep(tokens, ifSet, args, items, k);
        tokens := tokens + inner.tokens;
      }
      return Tokens(tokens);
    } else if op1 == "?" && op2 == ":" && (|subexpr| == 1 || |subexpr| == 3 || |subexpr| == 5) {
      var val := Get(args, varname);
      if |subexpr| == 1 {
        return Tokens([Unescape(if IsSet(val) then StringOf(val) else "")]);
      }
      var inner: Result;
      if IsSet(val) {
        inner := Format(ifSet, args);
      } else {
        inner := Format(ifUnset, args);
      }
      return if inner.Malformed? then Throws else inner;
    } else {
      return Malformed;
    }
  }

  function Prepended(tokens: seq<string>, r: Result): Result {
    if r.Tokens? then Tokens(tokens + r.tokens) else r
  }

  lemma RepeatStep(tokens: seq<string>, body: string, args: Fields, items: seq<Value>, k: nat)
    requires k < |items| && Fmt(body, ItemArgs(args, items, k)).Tokens?
    ensures Prepended(tokens + Fmt(body, ItemArgs(args, items, k)).tokens, Repeat(body, args, items, k + 1)) ==
            Prepended(tokens, Repeat(body, args, items, k))
  {
    var inner, more := Fmt(body, ItemArgs(args, items, k)), Repeat(body, args, items, k + 1);
    if more.Tokens? { assert tokens + inner.tokens + more.tokens == tokens + (inner.tokens + more.tokens); }
  }

  // ---- Templates as trees ---------------------------------------------------------------------

  datatype Node =
    | Lit(text: string)
    | Var(name: string)
    | Cond(name: string, yes: seq<Node>)
    | Either(name: string, yes: seq<Node>, no: seq<Node>)
    | Loop(name: string, body: seq<Node>)

  predicate IsSpecial(c: char) { c == '\\' || c == '{' || c == '}' || IsDelimiter(c) }

  /** A backslash before every special character. */
  function Escape(s: string): string {
    if s == "" then "" else (if IsSpecial(s[0]) then ['\\', s[0]] else [s[0]]) + Escape(s[1..])
  }

  /** The text between the braces. */
  function Body(t: Node): string
    decreases t, 0
  {
    match t
    case Lit(text) => ""
    case Var(name) => name
    case Cond(name, yes) => name + ("?" + PrintAll(yes))
    case Either(name, yes, no) => name + ("?" + (PrintAll(yes) + (":" + PrintAll(no))))
    case Loop(name, body) => name + ("#" + PrintAll(body))
  }

  function Print(t: Node): string
    decreases t, 1
  {
    if t.Lit? then Escape(t.text) else "%{" + Body(t) + "}"
  }

  function PrintAll(ts: seq<Node>): string
    decreases ts, 2
  {
    if ts == [] then "" else Print(ts[0]) + PrintAll(ts[1..])
  }

  predicate IsName(name: string) {
    name != "" && Trim(name) == name && forall c :: c in name ==> !IsSpecial(c)
  }

  predicate WellFormed(t: Node) {
    match t
    case Lit(_) => true
    case Var(name) => IsName(name)
    case Cond(name, yes) => IsName(name) && forall x :: x in yes ==> WellFormed(x)
    case Either(name, yes, no) =>
      IsName(name) && (forall x :: x in yes ==> WellFormed(x)) && (forall x :: x in no ==> WellFormed(x))
    case Loop(name, body) => IsName(name) && forall x :: x in body ==> WellFormed(x)
  }

  predicate AllWellFormed(ts: seq<Node>) { forall t :: t in ts ==> WellFormed(t) }

  // ---- What a tree means ----------------------------------------------------------------------

  /** Values are rendered without their backslashes, too; what is not set is rendered as nothing. */
  function Shown(v: Value): string { Unescape(if IsSet(v) then StringOf(v) else "") }

  function Denote(t: Node, args: Fields): string
    decreases t, 0
  {
    match t
    case Lit(text) => text
    case Var(name) => Shown(Get(args, name))
    case Cond(name, yes) => if IsSet(Get(args, name)) then DenoteBranch(name, yes, args) else ""
    case Either(name, yes, no) =>
      if IsSet(Get(args, name)) then DenoteBranch(name, yes, args) else DenoteAll(no, args)
    case Loop(name, body) => DenoteLoop(name, body, args, ToArray(Get(args, name)), 0)
  }

  function DenoteAll(ts: seq<Node>, args: Fields): string
    decreases ts, 1
  {
    if ts == [] then "" else Denote(ts[0], args) + DenoteAll(ts[1..], args)
  }

  /** A branch without any text stands for the variable itself. */
  function DenoteBranch(name: string, ts: seq<Node>, args: Fields): string
    decreases ts, 2
  {
    if PrintAll(ts) == "" then Shown(Get(args, name)) else DenoteAll(ts, args)
  }

  function DenoteLoop(name: string, ts: seq<Node>, args: Fields, items: seq<Value>, k: nat): string
    requires k <= |items|
    decreases ts, 3, |items| - k
  {
    if k == |items| then ""
    else DenoteBranch(name, ts, ItemArgs(args, items, k)) + DenoteLoop(name, ts, args, items, k + 1)
  }

  function Concat(tokens: seq<string>): string { if tokens == [] then "" else tokens[0] + Concat(tokens[1..]) }

  ghost predicate Renders(r: Result, text: string) { r.Tokens? && Concat(r.tokens) == text }

  // ---- Escaped text ---------------------------------------------------------------------------

  lemma {:induction false} UnescapeEscape(s: string)
    ensures Unescape(Escape(s)) == s && (Escape(s) == "" <==> s == "")
  {
    if s != "" {
      var e := Escape(s);
      assert e[1..] == if IsSpecial(s[0]) then [s[0]] + Escape(s[1..]) else Escape(s[1..]);
      if IsSpecial(s[0]) { assert e[2..] == Escape(s[1..]); }
      UnescapeEscape(s[1..]);
    }
  }

  lemma {:induction false} EscapeConcat(a: string, b: string)
    ensures Escape(a + b) == Escape(a) + Escape(b)
  {
    if a == "" {
      assert a + b == b;
    } else {
      assert (a + b)[1..] == a[1..] + b;
      EscapeConcat(a[1..], b);
    }
  }

  lemma EscapeStart(s: string)
    ensures Escape(s) != "" ==> Escape(s)[0] != '{'
  {
  }

  lemma {:induction false} PrintStart(ts: seq<Node>)
    ensures PrintAll(ts) != "" ==> PrintAll(ts)[0] != '{'
  {
    if ts != [] {
      if ts[0].Lit? { EscapeStart(ts[0].text); }
      PrintStart(ts[1..]);
    }
  }

  // ---- The inner scanner passes over printed text ---------------------------------------------

  /** From nesting depth k on, the inner scanner only collects x, whatever follows. */
  ghost predicate Collects(x: string, k: nat, st: Inner, rest: string) {
    !st.esc && st.nest >= k && st.nest > 0 ==>
      ScanInner(st, x + rest) == ScanInner(st.(cur := st.cur + x), rest)
  }

  ghost predicate Inert(x: string, k: nat) {
    forall st, rest {:trigger Collects(x, k, st, rest)} :: Collects(x, k, st, rest)
  }

  lemma InertConcat(a: string, b: string, k: nat)
    requires Inert(a, k) && Inert(b, k)
    ensures Inert(a + b, k)
  {
    forall st, rest ensures Collects(a + b, k, st, rest) {
      assert a + b + rest == a + (b + rest) && st.cur + (a + b) == st.cur + a + b;
      assert Collects(a, k, st, b + rest) && Collects(b, k, st.(cur := st.cur + a), rest);
    }
  }

  lemma InertDeeper(x: string, j: nat, k: nat)
    requires Inert(x, j) && j <= k
    ensures Inert(x, k)
  {
    forall st, rest ensures Collects(x, k, st, rest) { assert Collects(x, j, st, rest); }
  }

  lemma InertChar(c: char)
    requires !IsSpecial(c)
    ensures Inert([c], 1)
  {
    forall st, rest ensures Collects([c], 1, st, rest) {
      assert ([c] + rest)[0] == c && ([c] + rest)[1..] == rest;
    }
  }

  lemma InertEscape(c: char)
    ensures Inert(['\\', c], 1)
  {
    forall st, rest ensures Collects(['\\', c], 1, st, rest) {
      var text := ['\\', c] + rest;
      assert text[0] == '\\' && text[1..] == [c] + rest && ([c] + rest)[1..] == rest;
      assert st.cur + ['\\'] + [c] == st.cur + ['\\', c];
    }
  }

  /** Inside further braces a delimiter is collected. */
  lemma InertDelimiter(c: char)
    requires IsDelimiter(c)
    ensures Inert([c], 2)
  {
    forall st, rest ensures Collects([c], 2, st, rest) {
      assert ([c] + rest)[0] == c && ([c] + rest)[1..] == rest;
    }
  }

  lemma InertEmpty(k: nat)
    ensures Inert("", k)
  {
    forall st, rest ensures Collects("", k, st, rest) {
      assert "" + rest == rest && st.cur + "" == st.cur;
    }
  }

  lemma {:induction false} InertEscaped(s: string)
    ensures Inert(Escape(s), 1)
  {
    if s == "" {
      InertEmpty(1);
    } else {
      if IsSpecial(s[0]) { InertEscape(s[0]); } else { InertChar(s[0]); }
      InertEscaped(s[1..]);
      InertConcat(if IsSpecial(s[0]) then ['\\', s[0]] else [s[0]], Escape(s[1..]), 1);
    }
  }

  lemma {:induction false} InertName(name: string)
    requires forall c :: c in name ==> !IsSpecial(c)
    ensures Inert(name, 1)
  {
    if name == "" {
      InertEmpty(1);
    } else {
      assert name[0] in name && forall c :: c in name[1..] ==> c in name;
      InertChar(name[0]);
      InertName(name[1..]);
      assert [name[0]] + name[1..] == name;
      InertConcat([name[0]], name[1..], 1);
    }
  }

  lemma InertBraces(x: string)
    requires Inert(x, 2)
    ensures Inert("{" + x + "}", 1)
  {
    forall st, rest ensures Collects("{" + x + "}", 1, st, rest) {
      if !st.esc && st.nest >= 1 {
        var tail := "}" + rest;
        var inside := Inner(st.cur + "{", st.nest + 1, false, st.pieces);
        assert "{" + x + "}" + rest == "{" + (x + tail) && ("{" + (x + tail))[1..] == x + tail;
        assert Collects(x, 2, inside, tail) && tail[1..] == rest;
        assert inside.cur + x + "}" == st.cur + ("{" + x + "}");
      }
    }
  }

  lemma InertBranch(c: char, x: string)
    requires IsDelimiter(c) && Inert(x, 1)
    ensures Inert([c] + x, 2)
  {
    InertDelimiter(c);
    InertDeeper(x, 1, 2);
    InertConcat([c], x, 2);
  }

  lemma {:induction false} BodyInert(t: Node)
    requires WellFormed(t)
    ensures Inert(Body(t), 2)
    decreases t, 0
  {
    if t.Lit? {
      InertEmpty(2);
    } else {
      InertName(t.name);
      InertDeeper(t.name, 1, 2);
      match t
      case Cond(name, yes) =>
        PrintAllInert(yes);
        InertBranch('?', PrintAll(yes));
        InertConcat(name, "?" + PrintAll(yes), 2);
      case Either(name, yes, no) =>
        PrintAllInert(yes);
        PrintAllInert(no);
        InertBranch(':', PrintAll(no));
        InertBranch('?', PrintAll(yes));
        InertConcat("?" + PrintAll(yes), ":" + PrintAll(no), 2);
        assert "?" + PrintAll(yes) + (":" + PrintAll(no)) == "?" + (PrintAll(yes) + (":" + PrintAll(no)));
        InertConcat(name, "?" + (PrintAll(yes) + (":" + PrintAll(no))), 2);
      case Loop(name, body) =>
        PrintAllInert(body);
        InertBranch('#', PrintAll(body));
        InertConcat(name, "#" + PrintAll(body), 2);
      case _ =>
    }
  }

  lemma {:induction false} PrintInert(t: Node)
    requires WellFormed(t)
    ensures Inert(Print(t), 1)
    decreases t, 1
  {
    if t.Lit? {
      InertEscaped(t.text);
    } else {
      BodyInert(t);
      InertBraces(Body(t));
      InertChar('%');
      InertConcat("%", "{" + Body(t) + "}", 1);
      assert "%" + ("{" + Body(t) + "}") == Print(t);
    }
  }

  lemma {:induction false} PrintAllInert(ts: seq<Node>)
    requires AllWellFormed(ts)
    ensures Inert(PrintAll(ts), 1)
    decreases ts, 2
  {
    if ts == [] {
      InertEmpty(1);
    } else {
      PrintInert(ts[0]);
      PrintAllInert(ts[1..]);
      InertConcat(Print(ts[0]), PrintAll(ts[1..]), 1);
    }
  }

  // ---- What the inner scanner finds in a printed expression -----------------------------------

  /** The pieces of an expression. */
  function Pieces(t: Node): seq<string> {
    match t
    case Lit(_) => []
    case Var(name) => [name]
    case Cond(name, yes) => [name, "?", PrintAll(yes)]
    case Either(name, yes, no) => [name, "?", PrintAll(yes), ":", PrintAll(no)]
    case Loop(name, body) => [name, "#", PrintAll(body)]
  }

  lemma ScanClose(pieces: seq<string>, x: string, rest: string)
    requires Inert(x, 1)
    ensures ScanInner(Inner("", 1, false, pieces), x + ("}" + rest)) == Closed(pieces + [x], rest)
  {
    assert Collects(x, 1, Inner("", 1, false, pieces), "}" + rest) && "" + x == x && ("}" + rest)[1..] == rest;
  }

  lemma ScanDelimiter(pieces: seq<string>, x: string, c: char, rest: string)
    requires Inert(x, 1) && IsDelimiter(c)
    ensures ScanInner(Inner("", 1, false, pieces), x + ([c] + rest)) ==
            ScanInner(Inner("", 1, false, pieces + [x] + [[c]]), rest)
  {
    assert Collects(x, 1, Inner("", 1, false, pieces), [c] + rest) && "" + x == x && ([c] + rest)[1..] == rest;
  }

  lemma ScanBody(t: Node, rest: string)
    requires WellFormed(t) && !t.Lit?
    ensures ScanInner(Inner("", 1, false, []), Body(t) + ("}" + rest)) == Closed(Pieces(t), rest)
  {
    var close := "}" + rest;
    InertName(t.name);
    match t
    case Var(name) =>
      ScanClose([], name, rest);
      assert [] + [name] == Pieces(t);
    case Cond(name, yes) =>
      PrintAllInert(yes);
      TwoPieces(name, '?', PrintAll(yes), rest);
    case Loop(name, body) =>
      PrintAllInert(body);
      TwoPieces(name, '#', PrintAll(body), rest);
    case Either(name, yes, no) =>
      PrintAllInert(yes);
      PrintAllInert(no);
      ThreePieces(name, PrintAll(yes), PrintAll(no), rest);
    case _ =>
  }

  lemma TwoPieces(name: string, c: char, x: string, rest: string)
    requires Inert(name, 1) && Inert(x, 1) && IsDelimiter(c)
    ensures ScanInner(Inner("", 1, false, []), name + ([c] + x) + ("}" + rest)) == Closed([name, [c], x], rest)
  {
    var tail := x + ("}" + rest);
    assert name + ([c] + x) + ("}" + rest) == name + ([c] + tail);
    ScanDelimiter([], name, c, tail);
    ScanClose([] + [name] + [[c]], x, rest);
    assert [] + [name] + [[c]] + [x] == [name, [c], x];
  }

  lemma ThreePieces(name: string, x: string, y: string, rest: string)
    requires Inert(name, 1) && Inert(x, 1) && Inert(y, 1)
    ensures ScanInner(Inner("", 1, false, []), name + ("?" + (x + (":" + y))) + ("}" + rest)) ==
            Closed([name, "?", x, ":", y], rest)
  {
    var last := y + ("}" + rest);
    var tail := x + (":" + last);
    assert name + ("?" + (x + (":" + y))) + ("}" + rest) == name + ("?" + tail);
    ScanDelimiter([], name, '?', tail);
    ScanDelimiter([] + [name] + ["?"], x, ':', last);
    ScanClose([] + [name] + ["?"] + [x] + [":"], y, rest);
    assert [] + [name] + ["?"] + [x] + [":"] + [y] == [name, "?", x, ":", y];
  }

  // ---- Rendering a printed tree ---------------------------------------------------------------

  lemma {:induction false} ConcatJoin(a: seq<string>, b: seq<string>)
    ensures Concat(a + b) == Concat(a) + Concat(b)
  {
    if a == [] {
      assert a + b == b;
    } else {
      assert (a + b)[1..] == a[1..] + b;
      ConcatJoin(a[1..], b);
    }
  }

  lemma ConcatOne(x: string)
    ensures Concat([x]) == x
  {
    assert [x][1..] == [];
  }

  /** Literal text that waits for its token. */
  lemma LiteralToken(tokens: seq<string>, a: string)
    ensures Concat(WithLiteral(tokens, Escape(a))) == Concat(tokens) + a
  {
    UnescapeEscape(a);
    ConcatJoin(tokens, [a]);
    ConcatOne(a);
  }

  /** Escaped text never opens an expression: the scanner only collects it. */
  lemma {:induction false} OuterEscaped(cur: string, s: string, rest: string, tokens: seq<string>, args: Fields, n: nat)
    requires |cur| + |Escape(s)| + |rest| <= n && (rest != "" ==> rest[0] != '{')
    ensures Outer(cur, Escape(s) + rest, tokens, args, n) == Outer(cur + Escape(s), rest, tokens, args, n)
    decreases |s|
  {
    var e := Escape(s);
    if s == "" {
      assert e + rest == rest && cur + e == cur;
    } else {
      var head, tail := if IsSpecial(s[0]) then ['\\', s[0]] else [s[0]], Escape(s[1..]);
      assert e == head + tail && (|head| == 1 || (|head| == 2 && head[0] == '\\' && head[1] != '%'));
      EscapeStart(s[1..]);
      hide *;
      assert e + rest == head + (tail + rest) && cur + head + tail == cur + e;
      CollectHead(cur, head, tail + rest, tokens, args, n);
      OuterEscaped(cur + head, s[1..], rest, tokens, args, n);
    }
  }

  lemma CollectHead(cur: string, head: string, rest: string, tokens: seq<string>, args: Fields, n: nat)
    requires |cur| + |head| + |rest| <= n && (rest != "" ==> rest[0] != '{')
    requires |head| == 1 || (|head| == 2 && head[0] == '\\' && head[1] != '%')
    ensures Outer(cur, head + rest, tokens, args, n) == Outer(cur + head, rest, tokens, args, n)
  {
    var input := head + rest;
    if |head| == 1 {
      assert input[0] == head[0] && input[1..] == rest && [input[0]] == head;
      assert |input| > 1 ==> input[1] == rest[0];
    } else {
      var second := input[1..];
      assert input[0] == head[0] && second[0] == head[1] && second[1..] == rest;
      assert cur + [input[0]] + [second[0]] == cur + head;
    }
  }

  lemma LiteralStep(ts: seq<Node>, a: string, tokens: seq<string>, args: Fields, n: nat)
    requires ts != [] && ts[0].Lit? && |Escape(a)| + |PrintAll(ts)| <= n
    ensures |Escape(a + ts[0].text)| + |PrintAll(ts[1..])| <= n
    ensures Outer(Escape(a), PrintAll(ts), tokens, args, n) ==
            Outer(Escape(a + ts[0].text), PrintAll(ts[1..]), tokens, args, n)
  {
    PrintStart(ts[1..]);
    OuterEscaped(Escape(a), ts[0].text, PrintAll(ts[1..]), tokens, args, n);
    EscapeConcat(a, ts[0].text);
  }

  lemma ExpressionStep(ts: seq<Node>, a: string, tokens: seq<string>, args: Fields, n: nat, inner: seq<string>,
                       after: seq<string>)
    requires AllWellFormed(ts) && |Escape(a)| + |PrintAll(ts)| <= n && ts != [] && !ts[0].Lit?
    requires Fits(Pieces(ts[0]), n) && Expand(Pieces(ts[0]), args, n) == Tokens(inner)
    requires after == WithLiteral(tokens, Escape(a)) + inner
    ensures |PrintAll(ts[1..])| <= n
    ensures Outer(Escape(a), PrintAll(ts), tokens, args, n) == Outer("", PrintAll(ts[1..]), after, args, n)
  {
    var whole := PrintAll(ts);
    PrintedExpression(ts[0], PrintAll(ts[1..]), whole);
    ExpressionOfNode(ts[0], PrintAll(ts[1..]), args, n, whole[2..]);
    OuterStep(Escape(a), whole, tokens, args, n, whole[2..], Expression(whole[2..], args, n));
  }

  lemma PrintedExpression(t: Node, rest: string, whole: string)
    requires !t.Lit? && whole == Print(t) + rest
    ensures Opens(whole) && whole[2..] == Body(t) + ("}" + rest)
  {
    Braced(Body(t), rest, whole);
  }

  lemma Braced(body: string, rest: string, whole: string)
    requires whole == "%{" + body + "}" + rest
    ensures Opens(whole) && whole[2..] == body + ("}" + rest)
  {
  }

  /** From literal text a on, printed nodes add what they mean. */
  lemma {:induction false} OuterRenders(ts: seq<Node>, a: string, tokens: seq<string>, args: Fields, n: nat)
    requires AllWellFormed(ts) && |Escape(a)| + |PrintAll(ts)| <= n
    ensures Renders(Outer(Escape(a), PrintAll(ts), tokens, args, n), Concat(tokens) + a + DenoteAll(ts, args))
    decreases n, ts, 1
  {
    if ts == [] {
      LiteralToken(tokens, a);
    } else if ts[0].Lit? {
      LiteralStep(ts, a, tokens, args, n);
      OuterRenders(ts[1..], a + ts[0].text, tokens, args, n);
      FourParts(Concat(tokens), a, ts[0].text, DenoteAll(ts[1..], args));
    } else {
      OuterExpression(ts, a, tokens, args, n);
    }
  }

  lemma {:induction false} OuterExpression(ts: seq<Node>, a: string, tokens: seq<string>, args: Fields, n: nat)
    requires AllWellFormed(ts) && |Escape(a)| + |PrintAll(ts)| <= n && ts != [] && !ts[0].Lit?
    ensures Renders(Outer(Escape(a), PrintAll(ts), tokens, args, n), Concat(tokens) + a + DenoteAll(ts, args))
    decreases n, ts, 0
  {
    var whole := PrintAll(ts);
    PrintedExpression(ts[0], PrintAll(ts[1..]), whole);
    ExpressionOfNode(ts[0], PrintAll(ts[1..]), args, n, whole[2..]);
    ExpandRenders(ts[0], args, n);
    var inner := Expand(Pieces(ts[0]), args, n).tokens;
    var after := WithLiteral(tokens, Escape(a)) + inner;
    ExpressionStep(ts, a, tokens, args, n, inner, after);
    TokensAfter(tokens, a, inner, after);
    AfterRenders(ts[1..], after, args, n);
    ThreeParts(Concat(tokens) + a, Denote(ts[0], args), DenoteAll(ts[1..], args));
  }

  lemma {:induction false} AfterRenders(ts: seq<Node>, tokens: seq<string>, args: Fields, n: nat)
    requires AllWellFormed(ts) && |PrintAll(ts)| <= n
    ensures Renders(Outer("", PrintAll(ts), tokens, args, n), Concat(tokens) + "" + DenoteAll(ts, args))
    decreases n, ts, 2
  {
    OuterRenders(ts, "", tokens, args, n);
  }

  lemma ThreeParts(x: string, y: string, z: string)
    ensures x + y + "" + z == x + (y + z)
  {
  }

  lemma FourParts(x: string, a: string, s: string, z: string)
    ensures x + (a + s) + z == x + a + (s + z)
  {
  }

  lemma TokensAfter(tokens: seq<string>, a: string, inner: seq<string>, after: seq<string>)
    requires after == WithLiteral(tokens, Escape(a)) + inner
    ensures Concat(after) == Concat(tokens) + a + Concat(inner)
  {
    LiteralToken(tokens, a);
    ConcatJoin(WithLiteral(tokens, Escape(a)), inner);
  }

  lemma ExpressionOfNode(t: Node, rest: string, args: Fields, n: nat, input: string)
    requires WellFormed(t) && !t.Lit? && input == Body(t) + ("}" + rest) && |input| + 2 <= n
    ensures Fits(Pieces(t), n)
    ensures Expression(input, args, n) == Expansion(Expand(Pieces(t), args, n), rest)
  {
    ScanBody(t, rest);
    ScanFits(input, n);
  }

  /** The pieces of an expression render as it means. */
  lemma {:induction false} ExpandRenders(t: Node, args: Fields, n: nat)
    requires WellFormed(t) && !t.Lit? && Fits(Pieces(t), n)
    ensures Renders(Expand(Pieces(t), args, n), Denote(t, args))
    decreases n, t, 0
  {
    hide Fmt, Repeat, PrintAll, Trim;
    match t
    case Var(name) => ConcatOne(Shown(Get(args, name)));
    case Cond(name, yes) =>
      ChooseBranch(name, yes, "", args, n, Pieces(t));
      if IsSet(Get(args, name)) { BranchRenders(name, yes, args, n); } else { EmptyRenders(args); }
    case Either(name, yes, no) =>
      ChooseBranch(name, yes, PrintAll(no), args, n, Pieces(t));
      assert PrintAll(no) in Pieces(t);
      if IsSet(Get(args, name)) { BranchRenders(name, yes, args, n); } else { FmtRenders(no, args); }
    case Loop(name, body) =>
      ChooseLoop(name, body, args, n, Pieces(t));
      RepeatRenders(name, body, args, ToArray(Get(args, name)), 0, n);
    case _ =>
  }

  lemma ChooseBranch(name: string, yes: seq<Node>, no: string, args: Fields, n: nat, pieces: seq<string>)
    requires IsName(name) && Fits(pieces, n)
    requires (pieces == [name, "?", PrintAll(yes)] && no == "") || pieces == [name, "?", PrintAll(yes), ":", no]
    ensures |BranchText(name, yes)| < n
    ensures Expand(pieces, args, n) == Nested(Fmt(if IsSet(Get(args, name)) then BranchText(name, yes) else no, args))
  {
    assert pieces[2] in pieces && pieces[0] == name && Trim(name) == name && name != "";
    assert IfSet(pieces, name) == BranchText(name, yes);
    hide *;
    if |pieces| == 3 { ChooseThree(name, PrintAll(yes), args, n, pieces); }
    else { ChooseFive(name, PrintAll(yes), no, args, n, pieces); }
  }

  lemma ChooseThree(name: string, y: string, args: Fields, n: nat, pieces: seq<string>)
    requires Fits(pieces, n) && pieces == [name, "?", y] && Trim(name) == name && name != ""
    ensures |IfSet(pieces, name)| < n
    ensures Expand(pieces, args, n) == Nested(Fmt(if IsSet(Get(args, name)) then IfSet(pieces, name) else "", args))
  {
    hide Fmt, Nested, Trim, Get, IsSet;
    assert pieces[2] in pieces;
  }

  lemma ChooseFive(name: string, y: string, no: string, args: Fields, n: nat, pieces: seq<string>)
    requires Fits(pieces, n) && pieces == [name, "?", y, ":", no] && Trim(name) == name && name != ""
    ensures |IfSet(pieces, name)| < n
    ensures Expand(pieces, args, n) == Nested(Fmt(if IsSet(Get(args, name)) then IfSet(pieces, name) else no, args))
  {
    hide Fmt, Nested, Trim, Get, IsSet;
    assert pieces[2] in pieces;
  }

  lemma ChooseLoop(name: string, body: seq<Node>, args: Fields, n: nat, pieces: seq<string>)
    requires IsName(name) && Fits(pieces, n) && pieces == [name, "#", PrintAll(body)]
    ensures |BranchText(name, body)| < n
    ensures Expand(pieces, args, n) == Repeat(BranchText(name, body), args, ToArray(Get(args, name)), 0)
  {
    assert pieces[2] in pieces;
    assert Trim(pieces[0]) == name;
  }

  lemma EmptyRenders(args: Fields)
    ensures Renders(Fmt("", args), "")
  {
  }

  function BranchText(name: string, ts: seq<Node>): string {
    if PrintAll(ts) != "" then PrintAll(ts) else "%{" + name + "}"
  }

  lemma OneNode(t: Node, args: Fields)
    ensures PrintAll([t]) == Print(t) && DenoteAll([t], args) == Denote(t, args)
  {
    assert [t][1..] == [];
  }

  /** A branch, or the variable in the place of an empty branch. */
  lemma {:induction false} BranchRenders(name: string, ts: seq<Node>, args: Fields, n: nat)
    requires IsName(name) && AllWellFormed(ts) && |BranchText(name, ts)| < n
    ensures Renders(Fmt(BranchText(name, ts), args), DenoteBranch(name, ts, args))
    decreases n, ts, 1
  {
    if PrintAll(ts) != "" {
      FmtRenders(ts, args);
    } else {
      var t := [Var(name)];
      OneNode(Var(name), args);
      assert Print(Var(name)) == BranchText(name, ts);
      FmtRenders(t, args);
    }
  }

  lemma {:induction false} RepeatRenders(name: string, ts: seq<Node>, args: Fields, items: seq<Value>, k: nat, n: nat)
    requires IsName(name) && AllWellFormed(ts) && |BranchText(name, ts)| < n && k <= |items|
    ensures Renders(Repeat(BranchText(name, ts), args, items, k), DenoteLoop(name, ts, args, items, k))
    decreases n, ts, 2, |items| - k
  {
    if k < |items| {
      BranchRenders(name, ts, ItemArgs(args, items, k), n);
      RepeatRenders(name, ts, args, items, k + 1, n);
      ConcatJoin(Fmt(BranchText(name, ts), ItemArgs(args, items, k)).tokens,
                 Repeat(BranchText(name, ts), args, items, k + 1).tokens);
    }
  }

  /** Every printed template renders to what its tree means. */
  lemma {:induction false} FmtRenders(ts: seq<Node>, args: Fields)
    requires AllWellFormed(ts)
    ensures Renders(Fmt(PrintAll(ts), args), DenoteAll(ts, args))
    decreases |PrintAll(ts)|, ts, 3
  {
    assert Escape("") == "";
    OuterRenders(ts, "", [], args, |PrintAll(ts)|);
    assert Concat([]) + "" + DenoteAll(ts, args) == DenoteAll(ts, args);
  }

  // ---- Templates that are not well formed -------------------------------------------------------

  /** An expression that is not closed: a type error without a delimiter, else the template comes back. */
  lemma UnclosedExpression(x: string, c: char, y: string, args: Fields)
    requires Inert(x, 1) && Inert(y, 1) && IsDelimiter(c)
    ensures Fmt("%{" + x, args) == Throws
    ensures Fmt("%{" + x + [c] + y, args) == Malformed
  {
    var open1, open2 := "%{" + x, "%{" + x + [c] + y;
    ScanDelimiter([], x, c, y);
    assert x + ([c] + y) == open2[2..] && x == open1[2..];
    assert Collects(x, 1, Inner("", 1, false, []), "") && x + "" == x && "" + x == x;
    var pieces := [] + [x] + [[c]];
    assert Collects(y, 1, Inner("", 1, false, pieces), "") && y + "" == y && "" + y == y;
    UnclosedResult(open1, [], args);
    UnclosedResult(open2, pieces, args);
  }

  lemma UnclosedResult(text: string, pieces: seq<string>, args: Fields)
    requires Opens(text) && ScanInner(Inner("", 1, false, []), text[2..]) == Unclosed(pieces)
    ensures Fmt(text, args) == if pieces == [] then Throws else Malformed
  {
    OuterStep("", text, [], args, |text|, text[2..], Expression(text[2..], args, |text|));
  }

  /** The same inside a branch that is taken is always a type error. */
  lemma InnerMalformed(name: string, x: string, args: Fields, n: nat)
    requires IsName(name) && Fits([name, "?", x], n) && x != "" && IsSet(Get(args, name))
    requires !Fmt(x, args).Tokens?
    ensures Expand([name, "?", x], args, n) == Throws
  {
    assert Trim([name, "?", x][0]) == name && x in [name, "?", x];
  }
}
