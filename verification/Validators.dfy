/**
 * Evaluating compiled datatype expressions: the `or` and `and` combinators walk the stack of mixed
 * strides, and mean the disjunction and the conjunction of the expression tree.
 */
module Validators {
  import opened Common
  import opened DatatypeCompiler
  import opened Strings

  datatype Message = Expected(text: string) | Literal(entry: Entry) | OneOf(all: seq<Message>)

  /** The plain types: `None` accepts the value, a message rejects it; they leave the value alone. */
  type Leaf = (string, seq<Entry>, string) -> Option<Message>

  function ToNumber(s: string): Option<real> {
    var t := Trim(s);
    if t == "" then Some(0.0) else if IsDecimal(t) then Some(DecimalValue(t)) else None
  }

  /** `literal == this.value`: a number literal compares numerically. */
  predicate Matches(literal: Entry, value: string) {
    match literal
    case Num(x) => ToNumber(value) == Some(x)
    case Text(s) => s == value
    case _ => false
  }

  /** A text literal matches itself; a number matches its digits with blanks around them, and zero the empty text. */
  lemma LiteralMatches(x: real, s: string, n: nat, value: string)
    ensures Matches(Text(s), value) <==> s == value
    ensures Matches(Num(x), "") <==> x == 0.0
    ensures Matches(Num(x), NatStr(n)) <==> x == n as real
    ensures Matches(Num(x), " " + NatStr(n)) <==> x == n as real
    ensures Matches(Num(x), "-" + NatStr(n)) <==> x == -(n as real)
  {
    hide *;
    WholeNumber(n, NatStr(n));
    NumberOf(NatStr(n));
    NumberOf("-" + NatStr(n));
    LiteralCases(x, s, value, NatStr(n), n as real);
  }

  lemma WholeNumber(n: nat, t: string)
    requires t == NatStr(n)
    ensures t != "" && !IsSpace(t[0]) && !IsSpace(t[|t| - 1])
    ensures var m := "-" + t; m != "" && !IsSpace(m[0]) && !IsSpace(m[|m| - 1])
    ensures IsDecimal(t) && DecimalValue(t) == n as real && IsDecimal("-" + t) && DecimalValue("-" + t) == -(n as real)
  {
    hide IsDecimal, DecimalValue, NatStr;
    assert t[0] in t && t[|t| - 1] in t;
    NumberLabels(t, "", t);
    assert NatOf("") == 0;
  }

  lemma LiteralCases(x: real, s: string, value: string, t: string, v: real)
    requires ToNumber(t) == Some(v) && ToNumber(" " + t) == Some(v) && ToNumber("-" + t) == Some(-v)
    ensures Matches(Text(s), value) <==> s == value
    ensures Matches(Num(x), "") <==> x == 0.0
    ensures Matches(Num(x), t) <==> x == v
    ensures Matches(Num(x), " " + t) <==> x == v
    ensures Matches(Num(x), "-" + t) <==> x == -v
  {
    assert ToNumber("") == Some(0.0);
    hide ToNumber;
  }

  lemma NumberOf(t: string)
    requires IsDecimal(t) && t != "" && !IsSpace(t[0]) && !IsSpace(t[|t| - 1])
    ensures ToNumber(t) == Some(DecimalValue(t)) && ToNumber(" " + t) == Some(DecimalValue(t))
  {
    hide IsDecimal, DecimalValue;
    assert (" " + t)[1..] == t;
    assert TrimLeft(t) == t && TrimLeft(" " + t) == t && TrimRight(t) == t;
  }

  function ArgList(args: Entry): seq<Entry> { if args.Args? then args.entries else [] }

  /** The number of slots, arguments of arguments included. */
  function Size(es: seq<Entry>): nat
    decreases es
  {
    if es == [] then 0 else 1 + (if es[0].Args? then Size(es[0].entries) else 0) + Size(es[1..])
  }

  lemma SizeOfCall(es: seq<Entry>)
    requires |es| >= 2
    ensures Size(ArgList(es[1])) < Size(es) && Size(es[2..]) < Size(es)
  {
    assert es[1..][0] == es[1] && es[1..][1..] == es[2..];
    assert Size(es) >= 1 + Size(es[1..]);
  }

  // ---- The verdict on a stack -------------------------------------------------------------------

  function Verdict(leaf: Leaf, name: string, args: seq<Entry>, value: string): Option<Message>
    requires Shaped(args)
    decreases Size(args), 1
  {
    if name == "or" then OrVerdict(leaf, args, value, [])
    else if name == "and" then AndVerdict(leaf, args, value)
    else leaf(name, args, value)
  }

  function OrVerdict(leaf: Leaf, args: seq<Entry>, value: string, errors: seq<Message>): Option<Message>
    requires Shaped(args)
    decreases Size(args), 0
  {
    if args == [] then Some(OneOf(errors))
    else if args[0].Fn? then
      SizeOfCall(args);
      var v := Verdict(leaf, args[0].name, ArgList(args[1]), value);
      if v.None? then None else OrVerdict(leaf, args[2..], value, errors + [v.value])
    else if Matches(args[0], value) then None
    else OrVerdict(leaf, args[1..], value, errors + [Literal(args[0])])
  }

  function AndVerdict(leaf: Leaf, args: seq<Entry>, value: string): Option<Message>
    requires Shaped(args)
    decreases Size(args), 0
  {
    if args == [] then None
    else if args[0].Fn? then
      SizeOfCall(args);
      var v := Verdict(leaf, args[0].name, ArgList(args[1]), value);
      if v.Some? then v else AndVerdict(leaf, args[2..], value)
    else if !Matches(args[0], value) then Some(Literal(args[0]))
    else AndVerdict(leaf, args[1..], value)
  }

  // ---- The validator ----------------------------------------------------------------------------

  class Validator {
    var value: string
    var error: Option<Message>
    const leaf: Leaf

    constructor (leaf: Leaf)
      ensures this.leaf == leaf && value == "" && error == None
    {
      this.leaf, value, error := leaf, "", None;
    }

    method Assert(condition: bool, message: Message) returns (ok: bool)
      modifies this`error
      ensures ok == condition && error == if condition then None else Some(message)
    {
      error := if condition then None else Some(message);
      return condition;
    }

    /** Calls the validator function of a type; the result is true exactly when no error is left. */
    method Apply(name: string, args: seq<Entry>) returns (ok: bool)
      requires Shaped(args)
      modifies this`error
      ensures error == Verdict(leaf, name, args, value) && (ok <==> error.None?)
      decreases Size(args), 1
    {
      if name == "or" { ok := Or(args); }
      else if name == "and" { ok := And(args); }
      else {
        var v := leaf(name, args, value);
        ok := Assert(v.None?, if v.Some? then v.value else Expected(""));
      }
    }

    method Or(args: seq<Entry>) returns (ok: bool)
      requires Shaped(args)
      modifies this`error
      ensures error == OrVerdict(leaf, args, value, []) && (ok <==> error.None?)
      decreases Size(args), 0
    {
      var errors: seq<Message> := [];
      var i := 0;
      assert args[0..] == args;
      while i < |args|
        invariant 0 <= i <= |args| && Shaped(args[i..]) && Size(args[i..]) <= Size(args)
        invariant OrVerdict(leaf, args[i..], value, errors) == OrVerdict(leaf, args, value, [])
      {
        var rest := args[i..];
        if !args[i].Fn? {
          if Matches(args[i], value) {
            ok := Assert(true, Expected(""));
            return;
          }
          errors := errors + [Literal(args[i])];
          assert rest[1..] == args[i + 1..];
          i := i + 1;
        } else {
          assert rest[1] == args[i + 1] && rest[2..] == args[i + 2..];
          SizeOfCall(rest);
          var fits := Apply(args[i].name, ArgList(args[i + 1]));
          if fits {
            ok := Assert(true, Expected(""));
            return;
          }
          errors := errors + [error.value];
          i := i + 2;
        }
      }
      ok := Assert(false, OneOf(errors));
    }

    method And(args: seq<Entry>) returns (ok: bool)
      requires Shaped(args)
      modifies this`error
      ensures error == AndVerdict(leaf, args, value) && (ok <==> error.None?)
      decreases Size(args), 0
    {
      var i := 0;
      assert args[0..] == args;
      while i < |args|
        invariant 0 <= i <= |args| && Shaped(args[i..]) && Size(args[i..]) <= Size(args)
        invariant AndVerdict(leaf, args[i..], value) == AndVerdict(leaf, args, value)
      {
        var rest := args[i..];
        if !args[i].Fn? {
          if !Matches(args[i], value) {
            ok := Assert(false, Literal(args[i]));
            return;
          }
          assert rest[1..] == args[i + 1..];
          i := i + 1;
        } else {
          assert rest[1] == args[i + 1] && rest[2..] == args[i + 2..];
          SizeOfCall(rest);
          var fits := Apply(args[i].name, ArgList(args[i + 1]));
          if !fits {
            ok := Assert(false, error.value);
            return;
          }
          i := i + 2;
        }
      }
      ok := Assert(true, Expected(""));
    }

    /** `validate` of a field with a compiled type; only the first type of the stack is looked at. */
    method Validate(field: string, optional: bool, vstack: seq<Entry>) returns (valid: bool)
      requires Shaped(vstack) && vstack != [] && vstack[0].Fn?
      modifies this
      ensures value == field && (valid <==> error.None?)
      ensures valid <==> if field == "" then optional
                         else Verdict(leaf, vstack[0].name, ArgList(vstack[1]), field).None?
    {
      value, error := field, None;
      if |value| == 0 { valid := Assert(optional, Expected("non-empty value")); }
      else { valid := Apply(vstack[0].name, ArgList(vstack[1])); }
    }
  }

  // ---- The meaning of an expression ---------------------------------------------------------------

  function Meaning(leaf: Leaf, t: Tree, value: string): bool {
    match t
    case Number(text) => IsDecimal(text) && ToNumber(value) == Some(DecimalValue(text))
    case Quoted(_, text) => value == text
    case Type(name) => if name == "or" then false else if name == "and" then true else leaf(name, [], value).None?
    case Call(name, args) =>
      if name == "or" then exists a :: a in args && Meaning(leaf, a, value)
      else if name == "and" then forall a :: a in args ==> Meaning(leaf, a, value)
      else leaf(name, EncodeAll(args), value).None?
  }

  lemma {:induction false} EncodeShaped(ts: seq<Tree>)
    ensures Shaped(EncodeAll(ts))
    decreases ts
  {
    if ts != [] {
      EncodeShaped(ts[1..]);
      if ts[0].Call? { EncodeShaped(ts[0].args); }
      assert Encode(ts[0])[1..] == if |Encode(ts[0])| == 2 then [Encode(ts[0])[1]] else [];
      assert Shaped(Encode(ts[0])) by { assert |Encode(ts[0])| == 2 ==> Encode(ts[0])[2..] == []; }
      ShapedConcat(Encode(ts[0]), EncodeAll(ts[1..]));
    }
  }

  /** A type takes two slots, its name and its arguments. */
  lemma EncodedCall(ts: seq<Tree>, es: seq<Entry>)
    requires ts != [] && (ts[0].Type? || ts[0].Call?) && es == EncodeAll(ts)
    ensures |es| >= 2 && es[0] == Fn(ts[0].name) && es[1] == Encode(ts[0])[1] && es[2..] == EncodeAll(ts[1..])
  {
    var head, rest := Encode(ts[0]), EncodeAll(ts[1..]);
    assert |head| == 2 && es == head + rest;
    assert es[2..] == rest;
  }

  /** A literal takes one slot, and matches as the tree means. */
  lemma EncodedLiteral(types: set<string>, leaf: Leaf, ts: seq<Tree>, es: seq<Entry>, value: string)
    requires ts != [] && !ts[0].Type? && !ts[0].Call? && es == EncodeAll(ts) && WellFormed(types, ts[0])
    ensures es != [] && !es[0].Fn? && es[1..] == EncodeAll(ts[1..]) && (Matches(es[0], value) <==> Meaning(leaf, ts[0], value))
  {
    hide IsDecimal, DecimalValue, ToNumber;
    var head, rest := Encode(ts[0]), EncodeAll(ts[1..]);
    assert |head| == 1 && es == head + rest;
    assert es[1..] == rest;
  }

  lemma OrOfCall(leaf: Leaf, es: seq<Entry>, value: string, errors: seq<Message>)
    requires Shaped(es) && es != [] && es[0].Fn?
    ensures |es| >= 2 && Shaped(ArgList(es[1])) && Shaped(es[2..])
    ensures var v := Verdict(leaf, es[0].name, ArgList(es[1]), value);
            OrVerdict(leaf, es, value, errors) == if v.None? then None else OrVerdict(leaf, es[2..], value, errors + [v.value])
  {
    hide Verdict;
  }

  lemma AndOfCall(leaf: Leaf, es: seq<Entry>, value: string)
    requires Shaped(es) && es != [] && es[0].Fn?
    ensures |es| >= 2 && Shaped(ArgList(es[1])) && Shaped(es[2..])
    ensures var v := Verdict(leaf, es[0].name, ArgList(es[1]), value);
            AndVerdict(leaf, es, value) == if v.Some? then v else AndVerdict(leaf, es[2..], value)
  {
    hide Verdict;
  }

  lemma HeadOrTail(leaf: Leaf, ts: seq<Tree>, value: string)
    requires ts != []
    ensures (exists t :: t in ts && Meaning(leaf, t, value)) <==>
            Meaning(leaf, ts[0], value) || exists t :: t in ts[1..] && Meaning(leaf, t, value)
    ensures (forall t :: t in ts ==> Meaning(leaf, t, value)) <==>
            Meaning(leaf, ts[0], value) && forall t :: t in ts[1..] ==> Meaning(leaf, t, value)
  {
    hide Meaning;
    assert ts == [ts[0]] + ts[1..];
  }

  lemma {:induction false} OrMeaning(types: set<string>, leaf: Leaf, ts: seq<Tree>, value: string, errors: seq<Message>)
    requires forall t :: t in ts ==> WellFormed(types, t)
    ensures Shaped(EncodeAll(ts))
    ensures OrVerdict(leaf, EncodeAll(ts), value, errors).None? <==> exists t :: t in ts && Meaning(leaf, t, value)
    decreases ts, 1
  {
    EncodeShaped(ts);
    if ts == [] {
    } else {
      hide Meaning, WellFormed, Verdict, Encode, Matches, Shaped, EncodeAll;
      var es := EncodeAll(ts);
      HeadOrTail(leaf, ts, value);
      if ts[0].Type? || ts[0].Call? {
        OrCallMeaning(types, leaf, ts, es, value, errors);
      } else {
        EncodedLiteral(types, leaf, ts, es, value);
        OrMeaning(types, leaf, ts[1..], value, errors + [Literal(es[0])]);
      }
    }
  }

  lemma {:induction false} OrCallMeaning(types: set<string>, leaf: Leaf, ts: seq<Tree>, es: seq<Entry>, value: string,
                                         errors: seq<Message>)
    requires ts != [] && (ts[0].Type? || ts[0].Call?) && es == EncodeAll(ts) && Shaped(es)
    requires forall t :: t in ts ==> WellFormed(types, t)
    ensures OrVerdict(leaf, es, value, errors).None? <==>
            Meaning(leaf, ts[0], value) || exists t :: t in ts[1..] && Meaning(leaf, t, value)
    decreases ts, 0
  {
    hide Meaning, WellFormed, Verdict, Encode, Matches, Shaped, EncodeAll, OrVerdict;
    EncodedCall(ts, es);
    OrOfCall(leaf, es, value, errors);
    assert ts[0] in ts;
    TypeMeaning(types, leaf, ts[0], value);
    var v := Verdict(leaf, ts[0].name, ArgList(es[1]), value);
    OrMeaning(types, leaf, ts[1..], value, errors + if v.Some? then [v.value] else []);
  }

  lemma {:induction false} AndMeaning(types: set<string>, leaf: Leaf, ts: seq<Tree>, value: string)
    requires forall t :: t in ts ==> WellFormed(types, t)
    ensures Shaped(EncodeAll(ts))
    ensures AndVerdict(leaf, EncodeAll(ts), value).None? <==> forall t :: t in ts ==> Meaning(leaf, t, value)
    decreases ts, 1
  {
    EncodeShaped(ts);
    if ts == [] {
    } else {
      hide Meaning, WellFormed, Verdict, Encode, Matches, Shaped, EncodeAll;
      var es := EncodeAll(ts);
      HeadOrTail(leaf, ts, value);
      if ts[0].Type? || ts[0].Call? {
        EncodedCall(ts, es);
        AndOfCall(leaf, es, value);
        assert ts[0] in ts;
        TypeMeaning(types, leaf, ts[0], value);
      } else {
        EncodedLiteral(types, leaf, ts, es, value);
      }
      AndMeaning(types, leaf, ts[1..], value);
    }
  }

  /** The verdict on a compiled type is the meaning of the tree it was compiled from. */
  lemma {:induction false} TypeMeaning(types: set<string>, leaf: Leaf, t: Tree, value: string)
    requires WellFormed(types, t) && (t.Type? || t.Call?)
    ensures Shaped(ArgList(Encode(t)[1]))
    ensures Verdict(leaf, t.name, ArgList(Encode(t)[1]), value).None? <==> Meaning(leaf, t, value)
    decreases t, 0
  {
    if t.Call? {
      EncodeShaped(t.args);
      if t.name == "or" { OrMeaning(types, leaf, t.args, value, []); }
      if t.name == "and" { AndMeaning(types, leaf, t.args, value); }
    }
  }

  /** From text to verdict: a field with a printed datatype is valid exactly when the tree means so. */
  lemma PrintedMeaning(types: set<string>, leaf: Leaf, t: Tree, gap: string, value: string)
    requires WellFormed(types, t) && (t.Type? || t.Call?) && IsGap(gap)
    ensures var r := Compile(types, gap + Print(t, gap));
            && r.Ok? && Shaped(r.value) && r.value != [] && r.value[0].Fn?
            && (Verdict(leaf, r.value[0].name, ArgList(r.value[1]), value).None? <==> Meaning(leaf, t, value))
  {
    CompileUndoesPrint(types, [t], gap);
    assert PrintAll([t], gap) == gap + Print(t, gap);
    assert EncodeAll([t]) == Encode(t) by { assert [t][1..] == [] && EncodeAll([]) == [] && Encode(t) + [] == Encode(t); }
    EncodeShaped([t]);
    TypeMeaning(types, leaf, t, value);
  }

  // ---- What is reported ---------------------------------------------------------------------------

  /** The message of one item that is not met: a literal itself, or what its type reports. */
  ghost predicate Reports(leaf: Leaf, t: Tree, value: string, m: Message) {
    if !t.Type? && !t.Call? then m.Literal? && Encode(t) == [m.entry]
    else Shaped(ArgList(Encode(t)[1])) && Verdict(leaf, t.name, ArgList(Encode(t)[1]), value) == Some(m)
  }

  /** A message for each item, in order, after those that are there already. */
  ghost predicate ReportsAll(leaf: Leaf, ts: seq<Tree>, value: string, before: seq<Message>, all: seq<Message>) {
    && |all| == |before| + |ts| && before <= all
    && forall i :: 0 <= i < |ts| ==> Reports(leaf, ts[i], value, all[|before| + i])
  }

  lemma LaterReports(leaf: Leaf, ts: seq<Tree>, value: string, before: seq<Message>, m: Message, all: seq<Message>)
    requires ts != [] && Reports(leaf, ts[0], value, m) && ReportsAll(leaf, ts[1..], value, before + [m], all)
    ensures ReportsAll(leaf, ts, value, before, all)
  {
    hide Reports;
    assert all[|before|] == (before + [m])[|before|] == m;
    forall i | 0 <= i < |ts| ensures Reports(leaf, ts[i], value, all[|before| + i]) {
      if i > 0 { assert ts[1..][i - 1] == ts[i]; }
    }
  }

  /** `or` reports the messages of all its items in their order. */
  lemma {:induction false} OrReports(types: set<string>, leaf: Leaf, ts: seq<Tree>, value: string, errors: seq<Message>)
    requires forall t :: t in ts ==> WellFormed(types, t)
    ensures Shaped(EncodeAll(ts))
    ensures var r := OrVerdict(leaf, EncodeAll(ts), value, errors);
            r.Some? ==> r.value.OneOf? && ReportsAll(leaf, ts, value, errors, r.value.all)
    decreases ts
  {
    EncodeShaped(ts);
    if ts == [] {
    } else {
      var es := EncodeAll(ts);
      hide WellFormed, Verdict, Encode, Matches, EncodeAll, Reports, ReportsAll, Shaped;
      var r := OrVerdict(leaf, es, value, errors);
      if ts[0].Type? || ts[0].Call? {
        EncodedCall(ts, es);
        OrOfCall(leaf, es, value, errors);
        var v := Verdict(leaf, es[0].name, ArgList(es[1]), value);
        if v.Some? {
          TypeReports(leaf, ts[0], value, v.value);
          OrReports(types, leaf, ts[1..], value, errors + [v.value]);
          if r.Some? { LaterReports(leaf, ts, value, errors, v.value, r.value.all); }
        }
      } else {
        EncodedLiteral(types, leaf, ts, es, value);
        LiteralReports(leaf, ts, es, value);
        OrReports(types, leaf, ts[1..], value, errors + [Literal(es[0])]);
        if r.Some? { LaterReports(leaf, ts, value, errors, Literal(es[0]), r.value.all); }
      }
    }
  }

  lemma TypeReports(leaf: Leaf, t: Tree, value: string, m: Message)
    requires (t.Type? || t.Call?) && Shaped(ArgList(Encode(t)[1]))
    requires Verdict(leaf, t.name, ArgList(Encode(t)[1]), value) == Some(m)
    ensures Reports(leaf, t, value, m)
  {
  }

  lemma LiteralReports(leaf: Leaf, ts: seq<Tree>, es: seq<Entry>, value: string)
    requires ts != [] && !ts[0].Type? && !ts[0].Call? && es == EncodeAll(ts)
    ensures es != [] && Reports(leaf, ts[0], value, Literal(es[0]))
  {
    assert |Encode(ts[0])| == 1 && es == Encode(ts[0]) + EncodeAll(ts[1..]);
    assert Encode(ts[0]) == [es[0]];
  }

  /** `and` reports the message of the first item that is not met. */
  lemma {:induction false} AndReports(types: set<string>, leaf: Leaf, ts: seq<Tree>, value: string)
    requires forall t :: t in ts ==> WellFormed(types, t)
    ensures Shaped(EncodeAll(ts))
    ensures var r := AndVerdict(leaf, EncodeAll(ts), value);
            r.Some? ==> exists i :: 0 <= i < |ts| && Reports(leaf, ts[i], value, r.value) && FirstOpen(leaf, ts, value, i)
    decreases ts
  {
    EncodeShaped(ts);
    if ts == [] {
    } else {
      var es := EncodeAll(ts);
      hide WellFormed, Verdict, Encode, Matches, EncodeAll, Reports, Shaped, Meaning;
      var r := AndVerdict(leaf, es, value);
      assert ts[0] in ts;
      if ts[0].Type? || ts[0].Call? {
        EncodedCall(ts, es);
        AndOfCall(leaf, es, value);
        TypeMeaning(types, leaf, ts[0], value);
        var v := Verdict(leaf, es[0].name, ArgList(es[1]), value);
        if v.Some? { TypeReports(leaf, ts[0], value, v.value); }
      } else {
        EncodedLiteral(types, leaf, ts, es, value);
        LiteralReports(leaf, ts, es, value);
      }
      if r.Some? && Meaning(leaf, ts[0], value) {
        AndReports(types, leaf, ts[1..], value);
        var i :| 0 <= i < |ts[1..]| && Reports(leaf, ts[1..][i], value, r.value) && FirstOpen(leaf, ts[1..], value, i);
        LaterOpen(leaf, ts, value, i);
      } else if r.Some? {
        assert Reports(leaf, ts[0], value, r.value) && FirstOpen(leaf, ts, value, 0);
      }
    }
  }

  /** Item i is not met, and all items before it are. */
  ghost predicate FirstOpen(leaf: Leaf, ts: seq<Tree>, value: string, i: nat)
    requires i < |ts|
  {
    !Meaning(leaf, ts[i], value) && forall j :: 0 <= j < i ==> Meaning(leaf, ts[j], value)
  }

  lemma LaterOpen(leaf: Leaf, ts: seq<Tree>, value: string, i: nat)
    requires ts != [] && i < |ts[1..]| && Meaning(leaf, ts[0], value) && FirstOpen(leaf, ts[1..], value, i)
    ensures FirstOpen(leaf, ts, value, i + 1) && ts[i + 1] == ts[1..][i]
  {
    hide Meaning;
    forall j | 0 <= j < i + 1 ensures Meaning(leaf, ts[j], value) {
      if j > 0 { assert ts[1..][j - 1] == ts[j]; }
    }
  }
}
