/**
 * Dependencies between form options: when they hold, and their expansion from lists of allowed values
 * into single dependencies.
 */
module Depends {
  import opened Common

  datatype Value = Null | Flag(b: bool) | Text(text: string) | Items(items: seq<Value>)

  // ---- Comparing values -------------------------------------------------------------------------

  predicate SameKind(x: Value, y: Value) { (x.Flag? && y.Flag?) || (x.Text? && y.Text?) || (x.Items? && y.Items?) }

  predicate IsEqual(x: Value, y: Value)
    decreases x
  {
    if !x.Null? && !y.Null? && !SameKind(x, y) then false
    else if x.Null? != y.Null? then false
    else if x.Items? then |x.items| == |y.items| && forall i :: 0 <= i < |x.items| ==> IsEqual(x.items[i], y.items[i])
    else x == y
  }

  /** The comparison is equality. */
  lemma {:induction false} IsEqualIsEquality(x: Value, y: Value)
    ensures IsEqual(x, y) <==> x == y
    decreases x
  {
    if x.Items? && y.Items? && |x.items| == |y.items| {
      forall i | 0 <= i < |x.items| ensures IsEqual(x.items[i], y.items[i]) <==> x.items[i] == y.items[i] {
        IsEqualIsEquality(x.items[i], y.items[i]);
      }
      assert (forall i :: 0 <= i < |x.items| ==> x.items[i] == y.items[i]) ==> x.items == y.items;
    }
  }

  predicate Occurs(part: string, text: string) { part <= text || (text != "" && Occurs(part, text[1..])) }

  /** A list contains its items, a text the texts inside it; nothing contains what is no text. */
  predicate IsContained(x: Value, y: Value) {
    match x
    case Items(items) => y in items
    case Text(text) => y.Text? && Occurs(y.text, text)
    case _ => false
  }

  // ---- When dependencies hold -------------------------------------------------------------------

  /** One dependency: option names, and the markers that start with "!". */
  datatype Entry = Entry(key: string, value: Value)

  type Dependency = seq<Entry>

  /** The values of the active options; an option that is not active or not there reads as Null. */
  type Form = map<string, Value>

  function ValueOf(form: Form, name: string): Value { if name in form then form[name] else Null }

  predicate IsMarker(key: string) { key == "!reverse" || key == "!contains" || key == "!default" }

  predicate HasKey(d: Dependency, key: string) { exists i :: 0 <= i < |d| && d[i].key == key }

  /** Whether a marker is there with the value true. */
  predicate Marked(d: Dependency, key: string) { exists i :: 0 <= i < |d| && d[i].key == key && d[i].value == Flag(true) }

  /** One entry of a dependency: a marker says nothing about the form. */
  predicate Matches(e: Entry, contains: bool, form: Form) {
    IsMarker(e.key) ||
    if contains then IsContained(ValueOf(form, e.key), e.value) else ValueOf(form, e.key) == e.value
  }

  predicate AllMatch(d: Dependency, form: Form) {
    forall i :: 0 <= i < |d| ==> Matches(d[i], Marked(d, "!contains"), form)
  }

  /** All entries match and the dependency is no default, or the opposite for a reversed dependency. */
  predicate Holds(d: Dependency, form: Form) {
    (AllMatch(d, form) && !HasKey(d, "!default")) != Marked(d, "!reverse")
  }

  /** Without dependencies, with one that holds, or with a default. */
  predicate Satisfied(depends: seq<Dependency>, form: Form) {
    || depends == []
    || (exists i :: 0 <= i < |depends| && Holds(depends[i], form))
    || exists i :: 0 <= i < |depends| && HasKey(depends[i], "!default")
  }

  lemma {:induction false} OccursInside(part: string, text: string)
    ensures Occurs(part, text) <==> exists a, b :: text == a + part + b
  {
    if part <= text {
      assert text == "" + part + text[|part|..];
    } else if text != "" {
      OccursInside(part, text[1..]);
      if a, b :| text[1..] == a + part + b { assert text == ([text[0]] + a) + part + b; }
      if a, b :| text == a + part + b {
        assert a == "" ==> part <= text;
        assert text[1..] == a[1..] + part + b;
      }
    }
  }

  /** With the mark for containment, the option's text must have the given text inside, or its list an item like it. */
  lemma ContainsHolds(form: Form, key: string, part: string)
    requires !IsMarker(key)
    ensures Holds([Entry("!contains", Flag(true)), Entry(key, Text(part))], form) <==>
            match ValueOf(form, key)
            case Text(text) => exists a, b :: text == a + part + b
            case Items(items) => exists i :: 0 <= i < |items| && items[i] == Text(part)
            case _ => false
  {
    var d := [Entry("!contains", Flag(true)), Entry(key, Text(part))];
    var val := ValueOf(form, key);
    if val.Text? { OccursInside(part, val.text); }
    assert d[0].key == "!contains" && d[1].key == key && Marked(d, "!contains") && !Marked(d, "!reverse");
    assert !HasKey(d, "!default");
    assert Matches(d[0], true, form);
    assert AllMatch(d, form) <==> Matches(d[1], true, form);
  }

  method FindMarker(d: Dependency, key: string) returns (marked: bool)
    ensures marked == Marked(d, key)
  {
    marked := false;
    for i := 0 to |d|
      invariant marked == exists j :: 0 <= j < i && d[j].key == key && d[j].value == Flag(true)
    {
      if d[i].key == key && d[i].value == Flag(true) { marked := true; }
    }
  }

  method IsDependencySatisfied(depends: seq<Dependency>, form: Form) returns (ok: bool)
    ensures ok == Satisfied(depends, form)
  {
    var def := false;
    if |depends| == 0 { return true; }
    for i := 0 to |depends|
      invariant def == exists j :: 0 <= j < i && HasKey(depends[j], "!default")
      invariant forall j :: 0 <= j < i ==> !Holds(depends[j], form)
    {
      var d := depends[i];
      var reverse := FindMarker(d, "!reverse");
      var contains := FindMarker(d, "!contains");
      var istat, isDefault := CheckEntries(d, contains, form);
      def := def || isDefault;
      if istat != reverse { return true; }
    }
    return def;
  }

  /** The loop over the entries of one dependency. */
  method CheckEntries(d: Dependency, contains: bool, form: Form) returns (istat: bool, def: bool)
    requires contains == Marked(d, "!contains")
    ensures istat == (AllMatch(d, form) && !HasKey(d, "!default"))
    ensures def == HasKey(d, "!default")
  {
    istat, def := true, false;
    for k := 0 to |d|
      invariant def == exists j :: 0 <= j < k && d[j].key == "!default"
      invariant istat == (!def && forall j :: 0 <= j < k ==> Matches(d[j], contains, form))
    {
      var e := d[k];
      if e.key == "!reverse" || e.key == "!contains" {
      } else if e.key == "!default" {
        def, istat := true, false;
      } else {
        var val := ValueOf(form, e.key);
        IsEqualIsEquality(val, e.value);
        var equal := if contains then IsContained(val, e.value) else IsEqual(val, e.value);
        istat := istat && equal;
      }
    }
  }

  // ---- Expansion --------------------------------------------------------------------------------

  /** Allowed values by option name, in the order in which the names are enumerated. */
  datatype Choice = Choice(key: string, list: seq<Value>)

  predicate PlainKeys(deps: seq<Choice>) {
    && (forall i :: 0 <= i < |deps| ==> !IsMarker(deps[i].key))
    && forall i, j :: 0 <= i < j < |deps| ==> deps[i].key != deps[j].key
  }

  /** Every dependency of `res` with one more entry. */
  function Extended(res: seq<Dependency>, e: Entry): (r: seq<Dependency>)
    ensures |r| == |res|
  {
    seq(|res|, k requires 0 <= k < |res| => res[k] + [e])
  }

  /** For each value in turn, every dependency of `res` with that value. */
  function Crossed(res: seq<Dependency>, key: string, list: seq<Value>): seq<Dependency> {
    if list == [] then []
    else Crossed(res, key, list[..|list| - 1]) + Extended(res, Entry(key, list[|list| - 1]))
  }

  /** The dependencies that the choices expand to, when there is a choice. */
  function Expanded(deps: seq<Choice>): seq<Dependency> {
    if deps == [] then [[]]
    else var last := deps[|deps| - 1]; Crossed(Expanded(deps[..|deps| - 1]), last.key, last.list)
  }

  /** What is added to the option. */
  function Expansion(deps: seq<Choice>): seq<Dependency> { if deps == [] then [] else Expanded(deps) }

  method AddDependencyPermutations(oldDeps: seq<Dependency>, deps: seq<Choice>) returns (newDeps: seq<Dependency>)
    ensures newDeps == oldDeps + Expansion(deps)
  {
    var res: Option<seq<Dependency>> := None;
    for i := 0 to |deps|
      invariant res.GetOr([[]]) == Expanded(deps[..i]) && (res.None? <==> i == 0)
    {
      assert deps[..i + 1][..i] == deps[..i];
      var tmp := CrossList(res.GetOr([[]]), deps[i].key, deps[i].list);
      res := Some(tmp);
    }
    assert deps[..|deps|] == deps;
    newDeps := oldDeps;
    var all := res.GetOr([]);
    for i := 0 to |all|
      invariant newDeps == oldDeps + all[..i]
    {
      newDeps := newDeps + [all[i]];
    }
    assert all[..|all|] == all;
  }

  /** The two inner loops. */
  method CrossList(res: seq<Dependency>, key: string, list: seq<Value>) returns (tmp: seq<Dependency>)
    ensures tmp == Crossed(res, key, list)
  {
    tmp := [];
    for j := 0 to |list|
      invariant tmp == Crossed(res, key, list[..j])
    {
      assert list[..j + 1][..j] == list[..j];
      ghost var before := tmp;
      for k := 0 to |res|
        invariant tmp == before + Extended(res, Entry(key, list[j]))[..k]
      {
        tmp := tmp + [res[k] + [Entry(key, list[j])]];
      }
    }
    assert list[..|list|] == list;
  }

  // ---- What the expansion means -----------------------------------------------------------------

  /** Every option has one of its allowed values. */
  predicate AllAllowed(deps: seq<Choice>, form: Form) {
    forall i :: 0 <= i < |deps| ==> ValueOf(form, deps[i].key) in deps[i].list
  }

  predicate NoEmptyList(deps: seq<Choice>) { forall i :: 0 <= i < |deps| ==> deps[i].list != [] }

  function Product(deps: seq<Choice>): nat {
    if deps == [] then 1 else Product(deps[..|deps| - 1]) * |deps[|deps| - 1].list|
  }

  /** The entries are the options in order, without markers. */
  predicate PlainEntries(d: Dependency) { forall i :: 0 <= i < |d| ==> !IsMarker(d[i].key) }

  predicate EntriesHold(d: Dependency, form: Form) {
    forall i :: 0 <= i < |d| ==> ValueOf(form, d[i].key) == d[i].value
  }

  ghost predicate SomeHolds(res: seq<Dependency>, form: Form) {
    exists i {:trigger EntriesHold(res[i], form)} :: 0 <= i < |res| && EntriesHold(res[i], form)
  }

  predicate AllPlain(res: seq<Dependency>) { forall i :: 0 <= i < |res| ==> PlainEntries(res[i]) }

  lemma PlainConcat(a: seq<Dependency>, b: seq<Dependency>)
    ensures AllPlain(a + b) <==> AllPlain(a) && AllPlain(b)
  {
    hide PlainEntries;
    assert forall i :: 0 <= i < |a| ==> (a + b)[i] == a[i];
    assert forall i :: 0 <= i < |b| ==> (a + b)[|a| + i] == b[i];
  }

  lemma PlainHolds(d: Dependency, form: Form)
    requires PlainEntries(d)
    ensures Holds(d, form) <==> EntriesHold(d, form)
    ensures !HasKey(d, "!default")
  {
    assert IsMarker("!reverse") && IsMarker("!contains") && IsMarker("!default");
    assert !Marked(d, "!reverse") && !Marked(d, "!contains");
    if AllMatch(d, form) {
      forall i | 0 <= i < |d| ensures ValueOf(form, d[i].key) == d[i].value { assert Matches(d[i], false, form); }
    }
  }

  /**
   * A single dependency asks for all its values, one with the mark for reversal for not all of them; several are
   * alternatives; and an option without dependencies, or with a default among them, is always there.
   */
  lemma DependencyLaws(d: Dependency, a: seq<Dependency>, b: seq<Dependency>, form: Form)
    requires PlainEntries(d)
    ensures Satisfied([], form)
    ensures Satisfied([d], form) <==> EntriesHold(d, form)
    ensures Satisfied([d + [Entry("!reverse", Flag(true))]], form) <==> !EntriesHold(d, form)
    ensures Satisfied(a + [d + [Entry("!default", Flag(true))]] + b, form)
    ensures a != [] && b != [] ==> (Satisfied(a + b, form) <==> Satisfied(a, form) || Satisfied(b, form))
  {
    PlainHolds(d, form);
    ReversedHolds(d, form);
    DefaultIsThere(d, a, b, form);
    if a != [] && b != [] { Alternatives(a, b, form); }
    hide Holds, HasKey;
    assert [d][0] == d && [d + [Entry("!reverse", Flag(true))]][0] == d + [Entry("!reverse", Flag(true))];
  }

  lemma ReversedHolds(d: Dependency, form: Form)
    requires PlainEntries(d)
    ensures var r := d + [Entry("!reverse", Flag(true))]; (Holds(r, form) <==> !EntriesHold(d, form)) && !HasKey(r, "!default")
  {
    var r := d + [Entry("!reverse", Flag(true))];
    assert r[|d|].key == "!reverse" && Marked(r, "!reverse") && !Marked(r, "!contains");
    assert forall i :: 0 <= i < |d| ==> r[i] == d[i];
    assert AllMatch(r, form) <==> EntriesHold(d, form);
  }

  lemma DefaultIsThere(d: Dependency, a: seq<Dependency>, b: seq<Dependency>, form: Form)
    ensures Satisfied(a + [d + [Entry("!default", Flag(true))]] + b, form)
  {
    var r, all := d + [Entry("!default", Flag(true))], a + [d + [Entry("!default", Flag(true))]] + b;
    assert r[|d|].key == "!default" && HasKey(r, "!default") && all[|a|] == r;
  }

  lemma Alternatives(a: seq<Dependency>, b: seq<Dependency>, form: Form)
    requires a != [] && b != []
    ensures Satisfied(a + b, form) <==> Satisfied(a, form) || Satisfied(b, form)
  {
    hide Holds, HasKey;
    var all := a + b;
    assert forall i :: 0 <= i < |a| ==> all[i] == a[i];
    assert forall i :: 0 <= i < |b| ==> all[|a| + i] == b[i];
    assert forall i :: |a| <= i < |all| ==> all[i] == b[i - |a|];
  }

  lemma HoldsExtended(d: Dependency, e: Entry, form: Form)
    ensures EntriesHold(d + [e], form) <==> EntriesHold(d, form) && ValueOf(form, e.key) == e.value
    ensures PlainEntries(d) && !IsMarker(e.key) ==> PlainEntries(d + [e])
  {
    var all := d + [e];
    assert forall i :: 0 <= i < |d| ==> all[i] == d[i];
    assert all[|d|] == e;
  }

  lemma ExtendedMeaning(res: seq<Dependency>, e: Entry, form: Form)
    requires !IsMarker(e.key) && AllPlain(res)
    ensures AllPlain(Extended(res, e))
    ensures SomeHolds(Extended(res, e), form) <==> SomeHolds(res, form) && ValueOf(form, e.key) == e.value
  {
    var all := Extended(res, e);
    forall i | 0 <= i < |res|
      ensures PlainEntries(all[i])
      ensures EntriesHold(all[i], form) <==> EntriesHold(res[i], form) && ValueOf(form, e.key) == e.value
    {
      HoldsExtended(res[i], e, form);
    }
  }

  lemma SomeHoldsConcat(a: seq<Dependency>, b: seq<Dependency>, form: Form)
    ensures SomeHolds(a + b, form) <==> SomeHolds(a, form) || SomeHolds(b, form)
  {
    assert forall i :: 0 <= i < |a| ==> (a + b)[i] == a[i];
    assert forall i :: 0 <= i < |b| ==> (a + b)[|a| + i] == b[i];
    if SomeHolds(a, form) {
      var i :| 0 <= i < |a| && EntriesHold(a[i], form);
      assert EntriesHold((a + b)[i], form);
    }
    if SomeHolds(b, form) {
      var i :| 0 <= i < |b| && EntriesHold(b[i], form);
      assert EntriesHold((a + b)[|a| + i], form);
    }
    if SomeHolds(a + b, form) {
      var i :| 0 <= i < |a + b| && EntriesHold((a + b)[i], form);
      assert i < |a| ==> EntriesHold(a[i], form);
      assert i >= |a| ==> EntriesHold(b[i - |a|], form);
    }
  }

  lemma OneMoreTime(a: nat, n: nat)
    ensures a * n + a == a * (n + 1)
  {
  }

  lemma {:induction false} CrossedMeaning(res: seq<Dependency>, key: string, list: seq<Value>, form: Form)
    requires !IsMarker(key) && AllPlain(res)
    ensures AllPlain(Crossed(res, key, list))
    ensures |Crossed(res, key, list)| == |res| * |list|
    ensures SomeHolds(Crossed(res, key, list), form) <==> SomeHolds(res, form) && ValueOf(form, key) in list
  {
    if list == [] {
    } else {
      hide SomeHolds, Extended, AllPlain, IsMarker;
      var front, v := list[..|list| - 1], list[|list| - 1];
      assert Crossed(res, key, list) == Crossed(res, key, front) + Extended(res, Entry(key, v));
      hide Crossed;
      OneMoreTime(|res|, |front|);
      CrossedMeaning(res, key, front, form);
      ExtendedMeaning(res, Entry(key, v), form);
      PlainConcat(Crossed(res, key, front), Extended(res, Entry(key, v)));
      SomeHoldsConcat(Crossed(res, key, front), Extended(res, Entry(key, v)), form);
      assert list == front + [v];
    }
  }

  lemma {:induction false} ExpandedMeaning(deps: seq<Choice>, form: Form)
    requires PlainKeys(deps)
    ensures AllPlain(Expanded(deps))
    ensures |Expanded(deps)| == Product(deps)
    ensures SomeHolds(Expanded(deps), form) <==> AllAllowed(deps, form)
  {
    if deps == [] {
      assert EntriesHold([[]][0], form);
    } else {
      var front, last := deps[..|deps| - 1], deps[|deps| - 1];
      ExpandedMeaning(front, form);
      CrossedMeaning(Expanded(front), last.key, last.list, form);
      assert forall i :: 0 <= i < |front| ==> front[i] == deps[i];
    }
  }

  lemma {:induction false} ProductZero(deps: seq<Choice>)
    ensures Product(deps) == 0 <==> !NoEmptyList(deps)
  {
    if deps != [] {
      var front, last := deps[..|deps| - 1], deps[|deps| - 1];
      ProductZero(front);
      assert forall i :: 0 <= i < |front| ==> front[i] == deps[i];
      if Product(front) > 0 && last.list != [] { Positive(Product(front), |last.list|); }
    }
  }

  lemma Positive(x: nat, y: nat)
    requires x > 0 && y > 0
    ensures x * y > 0
  {
  }

  /** The number of dependencies added: none at all as soon as one list is empty. */
  lemma ExpansionCount(deps: seq<Choice>)
    requires PlainKeys(deps) && deps != []
    ensures |Expansion(deps)| == Product(deps) && (Expansion(deps) == [] <==> !NoEmptyList(deps))
  {
    ExpandedMeaning(deps, map[]);
    ProductZero(deps);
  }

  lemma SatisfiedPlain(all: seq<Dependency>, form: Form)
    requires AllPlain(all)
    ensures Satisfied(all, form) <==> all == [] || SomeHolds(all, form)
  {
    forall i | 0 <= i < |all|
      ensures Holds(all[i], form) <==> EntriesHold(all[i], form)
      ensures !HasKey(all[i], "!default")
    {
      PlainHolds(all[i], form);
    }
  }

  /** The expansion says that every option has an allowed value, exactly when no list is empty. */
  lemma ExpansionMeaning(deps: seq<Choice>, form: Form)
    requires PlainKeys(deps)
    ensures (Satisfied(Expansion(deps), form) <==> AllAllowed(deps, form)) <==> NoEmptyList(deps)
  {
    ExpandedMeaning(deps, form);
    ProductZero(deps);
    SatisfiedPlain(Expansion(deps), form);
    if !NoEmptyList(deps) {
      var i :| 0 <= i < |deps| && deps[i].list == [];
      assert !AllAllowed(deps, form);
    }
  }

  /** Everything that several calls add to one option. */
  function Accumulated(calls: seq<seq<Choice>>): seq<Dependency> {
    if calls == [] then [] else Accumulated(calls[..|calls| - 1]) + Expansion(calls[|calls| - 1])
  }

  /** A call that adds something, and a call whose constraint holds. */
  predicate Adds(call: seq<Choice>) { call != [] && NoEmptyList(call) }

  predicate Met(call: seq<Choice>, form: Form) { call != [] && AllAllowed(call, form) }

  predicate AnyAdds(calls: seq<seq<Choice>>) { exists i {:trigger Adds(calls[i])} :: 0 <= i < |calls| && Adds(calls[i]) }

  predicate AnyMet(calls: seq<seq<Choice>>, form: Form) {
    exists i {:trigger Met(calls[i], form)} :: 0 <= i < |calls| && Met(calls[i], form)
  }

  lemma AnyLast(front: seq<seq<Choice>>, last: seq<Choice>, form: Form)
    ensures AnyAdds(front + [last]) <==> AnyAdds(front) || Adds(last)
    ensures AnyMet(front + [last], form) <==> AnyMet(front, form) || Met(last, form)
  {
    var calls := front + [last];
    assert forall i :: 0 <= i < |front| ==> calls[i] == front[i];
    assert calls[|front|] == last;
    if AnyAdds(front) { var i :| 0 <= i < |front| && Adds(front[i]); assert Adds(calls[i]); }
    if AnyMet(front, form) { var i :| 0 <= i < |front| && Met(front[i], form); assert Met(calls[i], form); }
    if Adds(last) { assert Adds(calls[|front|]); }
    if Met(last, form) { assert Met(calls[|front|], form); }
  }

  lemma ExpansionParts(call: seq<Choice>, form: Form)
    requires PlainKeys(call)
    ensures AllPlain(Expansion(call))
    ensures SomeHolds(Expansion(call), form) <==> Met(call, form)
    ensures Expansion(call) != [] <==> Adds(call)
  {
    ExpandedMeaning(call, form);
    if call != [] { ExpansionCount(call); }
  }

  lemma AccumulatedLast(front: seq<seq<Choice>>, last: seq<Choice>)
    ensures Accumulated(front + [last]) == Accumulated(front) + Expansion(last)
  {
    hide Expansion;
    assert (front + [last])[..|front|] == front;
  }

  lemma {:induction false} AccumulatedMeaning(calls: seq<seq<Choice>>, form: Form)
    requires forall i :: 0 <= i < |calls| ==> PlainKeys(calls[i])
    ensures AllPlain(Accumulated(calls))
    ensures SomeHolds(Accumulated(calls), form) <==> AnyMet(calls, form)
    ensures Accumulated(calls) != [] <==> AnyAdds(calls)
  {
    if calls == [] {
    } else {
      hide *;
      var front, last := calls[..|calls| - 1], calls[|calls| - 1];
      assert calls == front + [last];
      assert forall i :: 0 <= i < |front| ==> front[i] == calls[i];
      AccumulatedMeaning(front, form);
      ExpansionParts(last, form);
      AccumulatedLast(front, last);
      PlainConcat(Accumulated(front), Expansion(last));
      SomeHoldsConcat(Accumulated(front), Expansion(last), form);
      AnyLast(front, last, form);
    }
  }

  /**
   * Several calls mean that the constraint of one of them holds.  A call with an empty list, or without
   * options, adds nothing; when no call adds anything there is no dependency, which is satisfied.
   */
  lemma SeveralCalls(calls: seq<seq<Choice>>, form: Form)
    requires forall i :: 0 <= i < |calls| ==> PlainKeys(calls[i])
    ensures Satisfied(Accumulated(calls), form) <==> !AnyAdds(calls) || AnyMet(calls, form)
  {
    AccumulatedMeaning(calls, form);
    SatisfiedPlain(Accumulated(calls), form);
  }
}
