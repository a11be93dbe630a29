/** What the templates of the firewall pages print, told on template texts: values, branches and the names in a loop. */
module TemplateTexts {
  import opened Common
  import opened Strings
  import opened Templates

  /** A name of one property, as it stands in a template. */
  predicate IsKey(key: string) { IsName(key) && '.' !in key }

  function Field(args: Fields, key: string): Value { if key in args then args[key] else Null }

  /** Text that is printed as it is. */
  predicate IsPlain(s: string) { '\\' !in s }

  predicate HasNoSpace(s: string) { forall c :: c in s ==> !IsSpace(c) }

  predicate AreTight(words: seq<string>) { forall w :: w in words ==> w != "" && HasNoSpace(w) }

  predicate AllSpace(s: string) { forall c :: c in s ==> IsSpace(c) }

  /** The words with white space between them, and around them or not. */
  ghost predicate Spaced(text: string, words: seq<string>)
    decreases words
  {
    if words == [] then AllSpace(text)
    else exists gap, more :: IsHeadWord(text, gap, words[0], more) &&
           if |words| == 1 then AllSpace(more) else StartsSpace(more) && Spaced(more, words[1..])
  }

  predicate IsHeadWord(text: string, gap: string, w: string, more: string) { AllSpace(gap) && text == gap + w + more }

  predicate StartsSpace(s: string) { s != "" && IsSpace(s[0]) }

  /** The words a value stands for in a loop: a list of them, a text of them, a flag by its name, or nothing. */
  ghost predicate AreWords(v: Value, words: seq<string>) {
    && (forall w :: w in words ==> w != "" && IsPlain(w))
    && match v
       case Null => words == []
       case Bool(b) => words == [if b then "true" else "false"]
       case List(items) => items == Strs(words)
       case Str(text) => AreTight(words) && Spaced(text, words)
       case _ => false
  }

  /** An expression in a template. */
  function Expr(body: string): string { "%{" + body + "}" }

  function JoinText(words: seq<string>, sep: string): string {
    if words == [] then "" else if |words| == 1 then words[0] else words[0] + sep + JoinText(words[1..], sep)
  }

  function Copies(s: string, n: nat): string { if n == 0 then "" else s + Copies(s, n - 1) }

  /** A branch without text stands for its variable, which is true. */
  function OrTrue(a: string): string { if a == "" then "true" else a }

  // ---- Names ------------------------------------------------------------------------------------

  lemma KeyReads(args: Fields, key: string)
    requires IsKey(key)
    ensures Get(args, key) == Field(args, key)
  {
    SplitHead(key, '.', "");
    assert Split(Trim(key), '.') == [key] && [key][1..] == [];
    assert WalkNames(Field(args, key), []) == Field(args, key);
  }

  lemma PlainUnescaped(s: string)
    requires IsPlain(s)
    ensures Unescape(s) == s
  {
    if s != "" {
      assert s[0] in s && forall c :: c in s[1..] ==> c in s;
      PlainUnescaped(s[1..]);
    }
  }

  /** A dotted name reads a property of an object, or an item of a list by its position. */
  lemma DottedName(args: Fields, key: string, sub: string)
    requires IsKey(key) && IsKey(sub) && Trim(key + "." + sub) == key + "." + sub
    ensures Get(args, key + "." + sub) ==
              match Field(args, key)
              case Obj(fields) => Field(fields, sub)
              case List(items) => ItemAt(items, sub)
              case _ => Null
  {
    SplitHead(key, '.', sub);
    SplitHead(sub, '.', "");
    assert key + "." + sub == key + ['.'] + sub;
    var names := [key] + [sub];
    assert Split(Trim(key + "." + sub), '.') == names && names[1..] == [sub] && [sub][1..] == [];
    var v := Field(args, key);
    assert WalkNames(Obj(args), names) == WalkNames(v, [sub]);
    assert v.Obj? ==> WalkNames(Field(v.fields, sub), []) == Field(v.fields, sub);
  }

  /** A list has its items by position and its length; it has no other properties. */
  lemma ItemNames(items: seq<Value>, k: nat, name: string)
    ensures ItemAt(items, NatStr(k)) == if k < |items| then items[k] else Null
    ensures ItemAt(items, "length") == Str(NatStr(|items|))
    ensures name != "length" && (forall i: nat :: i < |items| ==> name != NatStr(i)) ==> ItemAt(items, name) == Null
  {
    assert NatStr(k) != "length" by { assert NatStr(k)[0] in NatStr(k); }
    hide NatStr, NatOf;
  }

  // ---- Branches and plain values --------------------------------------------------------------------

  /** Exactly these values take the second branch. */
  predicate IsVoid(v: Value) { v == Null || v == Bool(false) || v == Str("") || v == List([]) || v == Obj(map[]) }

  lemma LitsDenote(s: string, args: Fields)
    ensures PrintAll([Lit(s)]) == Escape(s) && DenoteAll([Lit(s)], args) == s && (Escape(s) == "" <==> s == "")
  {
    OneNode(Lit(s), args);
    UnescapeEscape(s);
  }

  lemma BranchTaken(args: Fields, key: string, a: string, b: string)
    requires IsKey(key) && a != ""
    ensures Renders(Fmt(Expr(key + "?" + Escape(a) + ":" + Escape(b)), args), if IsVoid(Field(args, key)) then b else a)
    ensures Renders(Fmt(Expr(key + "?" + Escape(a)), args), if IsVoid(Field(args, key)) then "" else a)
  {
    KeyReads(args, key);
    var two, one := Either(key, [Lit(a)], [Lit(b)]), Cond(key, [Lit(a)]);
    assert IsSet(Field(args, key)) <==> !IsVoid(Field(args, key));
    FlagsWellFormed(key, a, b, []);
    BranchDenotes(args, key, a, b);
    hide *;
    OneRenders(two, args);
    OneRenders(one, args);
    PrintedExprs(key, a, b, []);
  }

  lemma BranchDenotes(args: Fields, key: string, a: string, b: string)
    requires a != ""
    ensures Denote(Either(key, [Lit(a)], [Lit(b)]), args) == if IsSet(Get(args, key)) then a else b
    ensures Denote(Cond(key, [Lit(a)]), args) == if IsSet(Get(args, key)) then a else ""
  {
    LitsDenote(a, args);
    LitsDenote(b, args);
    hide Get, IsSet;
  }

  lemma Regroup(x: string, y: string, z: string)
    ensures x + y + z == x + (y + z)
  {
  }

  lemma PrintedExprs(key: string, a: string, b: string, ts: seq<Node>)
    ensures Print(Var(key)) == Expr(key)
    ensures Print(Cond(key, [Lit(a)])) == Expr(key + "?" + Escape(a))
    ensures Print(Either(key, [Lit(a)], [Lit(b)])) == Expr(key + "?" + Escape(a) + ":" + Escape(b))
    ensures Print(Loop(key, ts)) == Expr(key + "#" + PrintAll(ts))
  {
    OneNode(Lit(a), map[]);
    OneNode(Lit(b), map[]);
    var x, y := Escape(a), Escape(b);
    assert Body(Cond(key, [Lit(a)])) == key + ("?" + x) && Body(Loop(key, ts)) == key + ("#" + PrintAll(ts));
    assert Body(Either(key, [Lit(a)], [Lit(b)])) == key + ("?" + (x + (":" + y)));
    hide PrintAll, Body, Escape;
    Regroup(key, "?", x);
    Regroup(key, "#", PrintAll(ts));
    Regroup(key, "?", x + (":" + y));
    Regroup(key + "?", x, ":" + y);
    Regroup(key + "?" + x, ":", y);
  }

  lemma FlagsWellFormed(key: string, a: string, b: string, ts: seq<Node>)
    requires IsName(key) && AllWellFormed(ts)
    ensures WellFormed(Var(key)) && WellFormed(Cond(key, [Lit(a)])) && WellFormed(Either(key, [Lit(a)], [Lit(b)]))
    ensures WellFormed(Loop(key, ts))
  {
  }

  lemma OneRenders(t: Node, args: Fields)
    requires WellFormed(t)
    ensures Renders(Fmt(Print(t), args), Denote(t, args))
  {
    FmtRenders([t], args);
    OneNode(t, args);
  }

  lemma {:induction false} JoinsItems(words: seq<string>)
    ensures JoinValues(Strs(words)) == Join(words, ',')
  {
    if words != [] {
      assert Strs(words)[1..] == Strs(words[1..]);
      JoinsItems(words[1..]);
    }
  }

  lemma {:induction false} JoinPlain(words: seq<string>)
    requires forall w :: w in words ==> IsPlain(w)
    ensures IsPlain(Join(words, ','))
  {
    if words != [] {
      assert words[0] in words;
      JoinPlain(words[1..]);
    }
  }

  /** Text is printed as it is, a list with commas, true as its name, and an empty value not at all. */
  lemma PlainValue(args: Fields, key: string, words: seq<string>)
    requires IsKey(key) && forall w :: w in words ==> IsPlain(w)
    ensures var v, r := Field(args, key), Fmt(Expr(key), args);
            && (IsVoid(v) ==> Renders(r, ""))
            && (v.Str? && IsPlain(v.text) ==> Renders(r, v.text))
            && (v == Bool(true) ==> Renders(r, "true"))
            && (v == List(Strs(words)) ==> Renders(r, Join(words, ',')))
            && (v.Obj? && v.fields != map[] ==> Renders(r, "[object Object]"))
  {
    var v := Field(args, key);
    KeyReads(args, key);
    assert Denote(Var(key), args) == Shown(v) && WellFormed(Var(key));
    ShownValue(v, words);
    hide *;
    OneRenders(Var(key), args);
    PrintedExprs(key, "", "", []);
  }

  lemma ShownValue(v: Value, words: seq<string>)
    requires forall w :: w in words ==> IsPlain(w)
    ensures IsVoid(v) ==> Shown(v) == ""
    ensures v.Str? && IsPlain(v.text) ==> Shown(v) == v.text
    ensures v == Bool(true) ==> Shown(v) == "true"
    ensures v == List(Strs(words)) ==> Shown(v) == Join(words, ',')
    ensures v.Obj? && v.fields != map[] ==> Shown(v) == "[object Object]"
  {
    JoinsItems(words);
    JoinPlain(words);
    hide Unescape, JoinValues, Join;
    PlainUnescaped("");
    assert IsSet(v) <==> !IsVoid(v);
    assert IsPlain("true") && IsPlain("[object Object]");
    if IsSet(v) && IsPlain(StringOf(v)) { PlainUnescaped(StringOf(v)); }
  }

  // ---- Words in a loop --------------------------------------------------------------------------------

  lemma {:induction false} StrsAt(words: seq<string>, k: nat)
    requires k < |words|
    ensures Strs(words)[k] == Str(words[k])
  {
    if k > 0 { StrsAt(words[1..], k - 1); }
  }

  lemma {:induction false} SplitWord(w: string, rest: string)
    requires HasNoSpace(w) && (rest == "" || IsSpace(rest[0]))
    ensures SplitSpace(w + rest) == [w] + SplitSpace(rest)[1..]
  {
    if w == "" {
      assert w + rest == rest;
    } else {
      assert w[0] in w && (w + rest)[1..] == w[1..] + rest;
      SplitWord(w[1..], rest);
      assert [w[0]] + w[1..] == w;
    }
  }

  lemma {:induction false} RightKept(x: string, y: string)
    requires TrimRight(y) != ""
    ensures TrimRight(x + y) == x + TrimRight(y)
  {
    assert (x + y)[|x + y| - 1] == y[|y| - 1];
    if IsSpace(y[|y| - 1]) {
      assert (x + y)[..|x + y| - 1] == x + y[..|y| - 1];
      RightKept(x, y[..|y| - 1]);
    }
  }

  lemma {:induction false} LeftSpace(s: string) returns (gap: string)
    ensures s == gap + TrimLeft(s) && AllSpace(gap) && (StartsSpace(s) ==> gap != "")
    ensures TrimLeft(s) != "" ==> !IsSpace(TrimLeft(s)[0])
  {
    if StartsSpace(s) {
      var rest := LeftSpace(s[1..]);
      gap := [s[0]] + rest;
      assert s == [s[0]] + s[1..];
    } else {
      gap := "";
    }
  }

  /** White space before a word that is not the first. */
  lemma GapSplits(gap: string, t: string)
    requires gap != "" && AllSpace(gap) && t != "" && !IsSpace(t[0])
    ensures SplitSpace(gap + t) == [""] + SplitSpace(t)
  {
    assert gap[0] in gap && (gap + t)[1..] == gap[1..] + t && forall c :: c in gap[1..] ==> c in gap;
    LeftTaken(gap[1..], t);
  }

  lemma WordThen(w: string, gap: string, t: string)
    requires HasNoSpace(w) && gap != "" && AllSpace(gap) && t != "" && !IsSpace(t[0])
    ensures SplitSpace(w + (gap + t)) == [w] + SplitSpace(t)
  {
    assert gap[0] in gap && (gap + t)[0] == gap[0];
    GapSplits(gap, t);
    hide SplitSpace;
    SplitWord(w, gap + t);
  }

  lemma {:induction false} SpacedSplit(text: string, words: seq<string>)
    requires words != [] && AreTight(words) && Spaced(text, words)
    ensures var s := Trim(text); s != "" && !IsSpace(s[0]) && SplitSpace(s) == words
    decreases words
  {
    var w, rest := words[0], words[1..];
    var gap, more :| IsHeadWord(text, gap, w, more) &&
      if |words| == 1 then AllSpace(more) else StartsSpace(more) && Spaced(more, rest);
    assert w in words && w[0] in w && w[|w| - 1] in w && forall x :: x in rest ==> x in words;
    assert text == gap + (w + more);
    LeftTaken(gap, w + more);
    if |words| == 1 {
      RightTaken(w, more);
      assert w + "" == w && words == [w] && SplitSpace("") == [""];
      SplitWord(w, "");
    } else {
      SpacedSplit(more, rest);
      hide SplitSpace, Spaced, AreTight;
      MoreSplit(w, more, rest);
      assert words == [w] + rest;
    }
  }

  lemma MoreSplit(w: string, more: string, rest: seq<string>)
    requires w != "" && HasNoSpace(w) && StartsSpace(more)
    requires var s := Trim(more); s != "" && !IsSpace(s[0]) && SplitSpace(s) == rest
    ensures var s := TrimRight(w + more); s != "" && !IsSpace(s[0]) && SplitSpace(s) == [w] + rest
  {
    var t := Trim(more);
    assert t == TrimRight(TrimLeft(more));
    var gap := LeftSpace(more);
    assert w[0] in w;
    hide TrimLeft, TrimRight, SplitSpace;
    RightKept(gap, TrimLeft(more));
    RightKept(w, more);
    WordThen(w, gap, t);
  }

  lemma WordsAreItems(v: Value, words: seq<string>)
    requires AreWords(v, words)
    ensures ToArray(v) == Strs(words)
  {
    if v.Bool? {
      assert AreTight(words) && words != [];
      BoolSpaced(StringOf(v), words);
      SpacedSplit(StringOf(v), words);
    }
    if v.Str? {
      if words == [] {
        assert v.text + "" == v.text;
        LeftTaken(v.text, "");
      } else {
        SpacedSplit(v.text, words);
      }
    }
  }

  lemma BoolSpaced(text: string, words: seq<string>)
    requires words == [text]
    ensures Spaced(text, words)
  {
    assert IsHeadWord(text, "", words[0], "");
  }

  // ---- The names in a loop ------------------------------------------------------------------------------

  lemma LetterKey(key: string)
    requires key != "" && forall c :: c in key ==> 'a' <= c <= 'z'
    ensures IsKey(key)
  {
    assert key[0] in key && key[|key| - 1] in key;
  }

  lemma LoopKeys()
    ensures IsKey("first") && IsKey("next") && IsKey("last") && IsKey("item")
  {
    hide IsKey;
    LetterKey("first");
    LetterKey("next");
    LetterKey("last");
    LetterKey("item");
  }

  lemma LoopNames(args: Fields, items: seq<Value>, k: nat)
    requires k < |items|
    ensures Get(ItemArgs(args, items, k), "first") == Bool(k == 0)
    ensures Get(ItemArgs(args, items, k), "next") == Bool(k > 0)
    ensures Get(ItemArgs(args, items, k), "last") == Bool(k == |items| - 1)
    ensures Get(ItemArgs(args, items, k), "item") == items[k]
  {
    LoopKeys();
    hide IsKey, Get;
    KeyReads(ItemArgs(args, items, k), "first");
    KeyReads(ItemArgs(args, items, k), "next");
    KeyReads(ItemArgs(args, items, k), "last");
    KeyReads(ItemArgs(args, items, k), "item");
  }

  lemma OtherNames(args: Fields, items: seq<Value>, k: nat, key: string)
    requires k < |items| && Split(Trim(key), '.')[0] !in ["first", "next", "last", "item"]
    ensures Get(ItemArgs(args, items, k), key) == Get(args, key)
  {
    var names := Split(Trim(key), '.');
    var name := names[0];
    assert name !in ["first", "next", "last", "item"];
    assert name != "first" && name != "next" && name != "last" && name != "item";
    var inner := ItemArgs(args, items, k);
    assert (name in inner <==> name in args) && (name in args ==> inner[name] == args[name]);
  }

  lemma {:induction false} LoopEach(name: string, ts: seq<Node>, args: Fields, items: seq<Value>, k: nat, outs: seq<string>)
    requires k <= |items| == |outs| && PrintAll(ts) != ""
    requires forall i :: 0 <= i < |items| ==> DenoteAll(ts, ItemArgs(args, items, i)) == outs[i]
    ensures DenoteLoop(name, ts, args, items, k) == Concat(outs[k..])
    decreases |items| - k
  {
    if k < |items| {
      hide DenoteAll, PrintAll, ItemArgs;
      assert outs[k..][1..] == outs[k + 1..];
      LoopEach(name, ts, args, items, k + 1, outs);
    }
  }

  /** A loop prints one text for each word. */
  lemma LoopPrints(args: Fields, key: string, words: seq<string>, ts: seq<Node>, outs: seq<string>)
    requires IsKey(key) && AreWords(Field(args, key), words) && AllWellFormed(ts) && PrintAll(ts) != "" && |outs| == |words|
    requires forall i :: 0 <= i < |words| ==> DenoteAll(ts, ItemArgs(args, Strs(words), i)) == outs[i]
    ensures Renders(Fmt(Expr(key + "#" + PrintAll(ts)), args), Concat(outs))
  {
    KeyReads(args, key);
    WordsAreItems(Field(args, key), words);
    assert WellFormed(Loop(key, ts));
    PrintedExprs(key, "", "", ts);
    hide DenoteAll, PrintAll, ItemArgs, AllWellFormed;
    OneRenders(Loop(key, ts), args);
    LoopEach(key, ts, args, Strs(words), 0, outs);
    assert outs[0..] == outs;
  }

  // ---- What loops print -----------------------------------------------------------------------------------

  lemma {:induction false} Glued(words: seq<string>, sep: string, outs: seq<string>, first: bool)
    requires |outs| == |words| && forall i :: 0 <= i < |words| ==> outs[i] == (if first && i == 0 then "" else sep) + words[i]
    ensures Concat(outs) == (if first || words == [] then "" else sep) + JoinText(words, sep)
    decreases |words|
  {
    if words != [] {
      Glued(words[1..], sep, outs[1..], false);
      assert words == [words[0]] + words[1..];
    }
  }

  lemma PairOf(a: Node, b: Node, args: Fields)
    ensures PrintAll([a, b]) == Print(a) + Print(b) && DenoteAll([a, b], args) == Denote(a, args) + Denote(b, args)
  {
    assert [a, b][1..] == [b];
    OneNode(b, args);
  }

  lemma FlagDenotes(flag: string, on: bool, a: string, b: string, args: Fields)
    requires Get(args, flag) == Bool(on)
    ensures Denote(Cond(flag, [Lit(a)]), args) == if on then OrTrue(a) else ""
    ensures Denote(Either(flag, [Lit(a)], [Lit(b)]), args) == if on then OrTrue(a) else b
  {
    LitsDenote(a, args);
    LitsDenote(b, args);
    PlainUnescaped("true");
    hide Get;
  }

  lemma TextDenotes(key: string, w: string, args: Fields)
    requires Get(args, key) == Str(w) && IsPlain(w)
    ensures Denote(Var(key), args) == w
  {
    PlainUnescaped(w);
    hide Get;
  }

  lemma NextAndItem(args: Fields, words: seq<string>, i: nat, sep: string)
    requires i < |words| && IsPlain(words[i])
    ensures DenoteAll([Cond("next", [Lit(sep)]), Var("item")], ItemArgs(args, Strs(words), i)) ==
              (if i == 0 then "" else OrTrue(sep)) + words[i]
  {
    var inner := ItemArgs(args, Strs(words), i);
    LoopNames(args, Strs(words), i);
    StrsAt(words, i);
    hide *;
    FlagDenotes("next", i > 0, sep, "", inner);
    TextDenotes("item", words[i], inner);
    PairOf(Cond("next", [Lit(sep)]), Var("item"), inner);
  }

  /** "%{proto#%{next?, }%{item}}": the separator stands between the words, and nowhere else. */
  lemma LoopJoins(args: Fields, key: string, words: seq<string>, sep: string)
    requires IsKey(key) && AreWords(Field(args, key), words)
    ensures Renders(Fmt(Expr(key + "#" + (Expr("next?" + Escape(sep)) + Expr("item"))), args), JoinText(words, OrTrue(sep)))
  {
    var s := OrTrue(sep);
    var outs := seq(|words|, i requires 0 <= i < |words| => (if i == 0 then "" else s) + words[i]);
    assert forall i :: 0 <= i < |words| ==> words[i] in words && IsPlain(words[i]);
    hide *;
    LoopKeys();
    NextText(Escape(sep));
    forall i | 0 <= i < |words|
      ensures DenoteAll([Cond("next", [Lit(sep)]), Var("item")], ItemArgs(args, Strs(words), i)) == outs[i]
    {
      NextAndItem(args, words, i, sep);
    }
    Glued(words, s, outs, true);
    LoopPair(args, key, words, "next", sep, "item", outs);
  }

  lemma NextText(x: string)
    ensures "next" + "?" + x == "next?" + x
  {
  }

  /** A loop over an expression with one branch and a plain one. */
  lemma LoopPair(args: Fields, key: string, words: seq<string>, flag: string, sep: string, item: string, outs: seq<string>)
    requires IsKey(key) && IsKey(flag) && IsKey(item) && AreWords(Field(args, key), words) && |outs| == |words|
    requires forall i :: 0 <= i < |words| ==>
               DenoteAll([Cond(flag, [Lit(sep)]), Var(item)], ItemArgs(args, Strs(words), i)) == outs[i]
    ensures Renders(Fmt(Expr(key + "#" + (Expr(flag + "?" + Escape(sep)) + Expr(item))), args), Concat(outs))
  {
    var t, u := Cond(flag, [Lit(sep)]), Var(item);
    FlagsWellFormed(flag, sep, "", []);
    FlagsWellFormed(item, "", "", []);
    assert AllWellFormed([t, u]);
    hide *;
    PrintedExprs(flag, sep, "", []);
    PrintedExprs(item, "", "", []);
    PairOf(t, u, args);
    NotEmpty(flag + "?" + Escape(sep), Expr(item));
    LoopPrints(args, key, words, [t, u], outs);
  }

  lemma NotEmpty(body: string, more: string)
    ensures Expr(body) != "" && Expr(body) + more != ""
  {
  }

  lemma {:induction false} CopiesConcat(outs: seq<string>, b: string)
    requires forall i :: 0 <= i < |outs| ==> outs[i] == b
    ensures Concat(outs) == Copies(b, |outs|)
  {
    if outs != [] { CopiesConcat(outs[1..], b); }
  }

  lemma ThenCopies(outs: seq<string>, n: nat, a: string, b: string)
    requires |outs| == n + 1 && outs[0] == a && forall i :: 0 < i <= n ==> outs[i] == b
    ensures Concat(outs) == a + Copies(b, n)
  {
    CopiesConcat(outs[1..], b);
    hide Copies;
  }

  lemma CopiesThen(outs: seq<string>, n: nat, a: string, b: string)
    requires |outs| == n + 1 && outs[n] == a && forall i :: 0 <= i < n ==> outs[i] == b
    ensures Concat(outs) == Copies(b, n) + a
  {
    assert outs == outs[..n] + [a];
    CopiesConcat(outs[..n], b);
    hide Concat, Copies;
    ConcatJoin(outs[..n], [a]);
    ConcatOne(a);
  }

  function Chosen(on: seq<bool>, a: string, b: string): (outs: seq<string>)
    ensures |outs| == |on| && forall i :: 0 <= i < |on| ==> outs[i] == if on[i] then a else b
  {
    seq(|on|, i requires 0 <= i < |on| => if on[i] then a else b)
  }

  /** A loop that asks for one flag of each round. */
  lemma LoopFlags(args: Fields, key: string, words: seq<string>, flag: string, on: seq<bool>, a: string, b: string)
    requires IsKey(key) && IsKey(flag) && AreWords(Field(args, key), words) && |on| == |words|
    requires forall i :: 0 <= i < |words| ==> Get(ItemArgs(args, Strs(words), i), flag) == Bool(on[i])
    ensures Renders(Fmt(Expr(key + "#" + Expr(flag + "?" + Escape(a) + ":" + Escape(b))), args),
                    Concat(Chosen(on, OrTrue(a), b)))
  {
    var t, outs := Either(flag, [Lit(a)], [Lit(b)]), Chosen(on, OrTrue(a), b);
    FlagsWellFormed(flag, a, b, []);
    assert AllWellFormed([t]);
    hide *;
    OneNode(t, args);
    PrintedExprs(flag, a, b, []);
    NotEmpty(flag + "?" + Escape(a) + ":" + Escape(b), "");
    forall i | 0 <= i < |words| ensures DenoteAll([t], ItemArgs(args, Strs(words), i)) == outs[i] {
      var inner := ItemArgs(args, Strs(words), i);
      FlagDenotes(flag, on[i], a, b, inner);
      OneNode(t, inner);
    }
    LoopPrints(args, key, words, [t], outs);
  }

  lemma FirstOfAll(args: Fields, words: seq<string>, a: string, b: string) returns (on: seq<bool>)
    ensures |on| == |words| && forall i :: 0 <= i < |words| ==> Get(ItemArgs(args, Strs(words), i), "first") == Bool(on[i])
    ensures Concat(Chosen(on, a, b)) == if words == [] then "" else a + Copies(b, |words| - 1)
  {
    var n := |words|;
    on := seq(n, i requires 0 <= i < n => i == 0);
    if n > 0 { ThenCopies(Chosen(on, a, b), n - 1, a, b); }
    hide *;
    forall i | 0 <= i < n ensures Get(ItemArgs(args, Strs(words), i), "first") == Bool(on[i]) {
      LoopNames(args, Strs(words), i);
    }
  }

  lemma LastOfAll(args: Fields, words: seq<string>, a: string, b: string) returns (on: seq<bool>)
    ensures |on| == |words| && forall i :: 0 <= i < |words| ==> Get(ItemArgs(args, Strs(words), i), "last") == Bool(on[i])
    ensures Concat(Chosen(on, a, b)) == if words == [] then "" else Copies(b, |words| - 1) + a
  {
    var n := |words|;
    on := seq(n, i requires 0 <= i < n => i == n - 1);
    if n > 0 { CopiesThen(Chosen(on, a, b), n - 1, a, b); }
    hide *;
    forall i | 0 <= i < n ensures Get(ItemArgs(args, Strs(words), i), "last") == Bool(on[i]) {
      LoopNames(args, Strs(words), i);
    }
  }

  lemma FlagTexts(x: string)
    ensures "first" + "?" + x == "first?" + x && "last" + "?" + x == "last?" + x
  {
  }

  /** "first" is set in the first round alone. */
  lemma LoopFirst(args: Fields, key: string, words: seq<string>, a: string, b: string)
    requires IsKey(key) && AreWords(Field(args, key), words)
    ensures Renders(Fmt(Expr(key + "#" + Expr("first?" + Escape(a) + ":" + Escape(b))), args),
                    if words == [] then "" else OrTrue(a) + Copies(b, |words| - 1))
  {
    hide *;
    LoopKeys();
    FlagTexts(Escape(a));
    var on := FirstOfAll(args, words, OrTrue(a), b);
    LoopFlags(args, key, words, "first", on, a, b);
  }

  /** "last" is set in the last round alone. */
  lemma LoopLast(args: Fields, key: string, words: seq<string>, a: string, b: string)
    requires IsKey(key) && AreWords(Field(args, key), words)
    ensures Renders(Fmt(Expr(key + "#" + Expr("last?" + Escape(a) + ":" + Escape(b))), args),
                    if words == [] then "" else Copies(b, |words| - 1) + OrTrue(a))
  {
    hide *;
    LoopKeys();
    FlagTexts(Escape(a));
    var on := LastOfAll(args, words, OrTrue(a), b);
    LoopFlags(args, key, words, "last", on, a, b);
  }

  /** All other names mean in a loop what they mean outside of it. */
  lemma LoopOther(args: Fields, key: string, words: seq<string>, other: string, text: string)
    requires IsKey(key) && AreWords(Field(args, key), words)
    requires IsName(other) && Split(other, '.')[0] !in ["first", "next", "last", "item"]
    requires Renders(Fmt(Expr(other), args), text)
    ensures Renders(Fmt(Expr(key + "#" + Expr(other)), args), Copies(text, |words|))
  {
    var t, outs := Var(other), seq(|words|, i requires 0 <= i < |words| => text);
    FlagsWellFormed(other, "", "", []);
    assert AllWellFormed([t]) && Trim(other) == other;
    CopiesConcat(outs, text);
    assert Concat(Fmt(Expr(other), args).tokens) == text;
    OneRenders(t, args);
    PrintedExprs(other, "", "", []);
    assert Denote(t, args) == text;
    hide *;
    OneNode(t, args);
    NotEmpty(other, "");
    forall i | 0 <= i < |words| ensures DenoteAll([t], ItemArgs(args, Strs(words), i)) == outs[i] {
      SameVariable(args, Strs(words), i, other);
      OneNode(t, ItemArgs(args, Strs(words), i));
    }
    LoopPrints(args, key, words, [t], outs);
  }

  lemma SameVariable(args: Fields, items: seq<Value>, i: nat, other: string)
    requires i < |items| && Split(Trim(other), '.')[0] !in ["first", "next", "last", "item"]
    ensures Denote(Var(other), ItemArgs(args, items, i)) == Denote(Var(other), args)
  {
    OtherNames(args, items, i, other);
    hide Get, ItemArgs;
  }

  // ---- What comes back as it is ---------------------------------------------------------------------------

  lemma NotExpanded(body: string, pieces: seq<string>, args: Fields)
    requires pieces != [] && ScanInner(Inner("", 1, false, []), body + "}") == Closed(pieces, "")
    requires Fits(pieces, |body| + 3) ==> Expand(pieces, args, |body| + 3) == Malformed
    ensures Fmt(Expr(body), args) == Malformed
  {
    var text := Expr(body);
    assert Opens(text) && text[2..] == body + "}" && |text| == |body| + 3;
    ScanFits(text[2..], |text|);
    hide ScanInner, Expand, Fits, Outer;
    OuterStep("", text, [], args, |text|, text[2..], Expression(text[2..], args, |text|));
  }

  /** Only these delimiters make an expression; with any others the template is handed back. */
  lemma WrongDelimiters(args: Fields, key: string, c: char, x: string, d: char, y: string)
    requires Inert(key, 1) && Inert(x, 1) && Inert(y, 1) && IsDelimiter(c) && IsDelimiter(d)
    ensures Trim(key) == "" || c == ':' ==> Fmt(Expr(key + ([c] + x)), args) == Malformed
    ensures Trim(key) == "" || c != '?' || d != ':' ==> Fmt(Expr(key + ([c] + (x + ([d] + y)))), args) == Malformed
  {
    TwoPieces(key, c, x, "");
    FivePieces(key, c, x, d, y);
    assert "}" + "" == "}";
    hide ScanInner, Fmt, Expr, Inert;
    if Trim(key) == "" || c == ':' { NotExpanded(key + ([c] + x), [key, [c], x], args); }
    if Trim(key) == "" || c != '?' || d != ':' {
      NotExpanded(key + ([c] + (x + ([d] + y))), [key, [c], x, [d], y], args);
    }
  }

  lemma FivePieces(key: string, c: char, x: string, d: char, y: string)
    requires Inert(key, 1) && Inert(x, 1) && Inert(y, 1) && IsDelimiter(c) && IsDelimiter(d)
    ensures ScanInner(Inner("", 1, false, []), key + ([c] + (x + ([d] + y))) + "}") == Closed([key, [c], x, [d], y], "")
  {
    var last := y + ("}" + "");
    assert key + ([c] + (x + ([d] + y))) + "}" == key + ([c] + (x + ([d] + last)));
    ScanDelimiter([], key, c, x + ([d] + last));
    ScanDelimiter([] + [key] + [[c]], x, d, last);
    ScanClose([] + [key] + [[c]] + [x] + [[d]], y, "");
    assert [] + [key] + [[c]] + [x] + [[d]] + [y] == [key, [c], x, [d], y];
  }
}
