/** The order of the sections of a package: what `sections` lists and what `move` does to it. */
module UciOrder {
  import opened Common
  import opened UciState
  import opened UciRuns

  function NameOf(sec: Section): string {
    if ".name" in sec && sec[".name"].Str? then sec[".name"].text else ""
  }

  function IndexOf(sec: Section): int {
    if ".index" in sec && sec[".index"].Num? then sec[".index"].n else 0
  }

  function NamesOf(sa: seq<Section>): (names: seq<string>)
    ensures |names| == |sa| && forall i :: 0 <= i < |sa| ==> names[i] == NameOf(sa[i])
  {
    seq(|sa|, i requires 0 <= i < |sa| => NameOf(sa[i]))
  }

  ghost predicate DistinctStrings(names: seq<string>) {
    forall i, j :: 0 <= i < j < |names| ==> names[i] != names[j]
  }

  ghost predicate SameElements(a: seq<string>, b: seq<string>) { forall x :: x in a <==> x in b }

  /** The names come in increasing order of their keys. */
  ghost predicate SortedBy(names: seq<string>, key: string -> int) {
    forall i, j :: 0 <= i < j < |names| ==> key(names[i]) <= key(names[j])
  }

  ghost predicate InjectiveOn(names: seq<string>, key: string -> int) {
    forall x, y :: x in names && y in names && key(x) == key(y) ==> x == y
  }

  lemma HeadAndTail(a: seq<string>)
    requires a != [] && DistinctStrings(a)
    ensures forall x {:trigger x in a[1..]} :: x in a[1..] <==> x in a && x != a[0]
    ensures DistinctStrings(a[1..])
  {
    assert a == [a[0]] + a[1..];
  }

  lemma SameHead(a: seq<string>, b: seq<string>, key: string -> int)
    requires a != [] && b != [] && SortedBy(a, key) && SortedBy(b, key)
    requires a[0] in b && b[0] in a && InjectiveOn(a, key)
    ensures a[0] == b[0]
  {
    var i :| 0 <= i < |a| && a[i] == b[0];
    var j :| 0 <= j < |b| && b[j] == a[0];
    assert key(a[0]) <= key(a[i]) && key(b[0]) <= key(b[j]);
  }

  lemma SameTails(a: seq<string>, b: seq<string>, s: seq<string>, t: seq<string>, key: string -> int)
    requires a != [] && b != [] && a[0] == b[0] && s == a[1..] && t == b[1..]
    requires DistinctStrings(a) && DistinctStrings(b) && SortedBy(a, key) && SortedBy(b, key)
    requires SameElements(a, b) && InjectiveOn(a, key)
    ensures DistinctStrings(s) && DistinctStrings(t) && SortedBy(s, key) && SortedBy(t, key)
    ensures SameElements(s, t) && InjectiveOn(s, key)
  {
    HeadAndTail(a);
    HeadAndTail(b);
    forall x ensures x in s <==> x in t { assert x in a <==> x in b; }
  }

  /** Sorting by distinct keys has one result. */
  lemma {:induction false} SortedUnique(a: seq<string>, b: seq<string>, key: string -> int)
    requires DistinctStrings(a) && DistinctStrings(b) && SortedBy(a, key) && SortedBy(b, key)
    requires SameElements(a, b) && InjectiveOn(a, key)
    ensures a == b
    decreases |a|
  {
    assert (a != [] ==> a[0] in b) && (b != [] ==> b[0] in a);
    if a != [] {
      SameHead(a, b, key);
      SameTails(a, b, a[1..], b[1..], key);
      hide SortedBy, SameElements, InjectiveOn, DistinctStrings;
      SortedUnique(a[1..], b[1..], key);
      assert a == [a[0]] + a[1..] && b == [b[0]] + b[1..];
    }
  }

  // ---- sections() -------------------------------------------------------------------------

  /** What `sections` copies for a live section: changes are applied, option-level deletes are not. */
  function Listed(e: Entry): Section {
    if e.created.Some? then e.created.value
    else if e.loaded.Some? then e.loaded.value + e.Changes()
    else map[]
  }

  function Position(st: State, conf: string, sid: string): int { IndexOf(Listed(EntryAt(st, conf, sid))) }

  predicate Listable(st: State, conf: string, typ: string, sid: string) {
    && conf in st.values && Live(st, conf, sid)
    && (typ == "" || Opt(Listed(EntryAt(st, conf, sid)), ".type") == Some(Str(typ)))
  }

  /** Each live section of the type once, sorted by its index, then renumbered. */
  ghost predicate IsListing(st: State, conf: string, typ: string, sa: seq<Section>) {
    && DistinctStrings(NamesOf(sa))
    && (forall s :: s in NamesOf(sa) <==> Listable(st, conf, typ, s))
    && SortedBy(NamesOf(sa), s => Position(st, conf, s))
    && forall i :: 0 <= i < |sa| ==> sa[i] == Listed(EntryAt(st, conf, NameOf(sa[i])))[".index" := Num(i)]
  }

  /** A listed option is the one `get` reads, unless its deletion is pending: then the old value is listed. */
  lemma ListedAgrees(e: Entry, sid: string, opt: string)
    requires e.Inv(sid) && e.Shown().Some?
    ensures opt !in e.Deletions() || e.created.Some? ==> Opt(Listed(e), opt) == e.Read(opt)
    ensures opt in e.Deletions() && e.created.None? ==>
              e.Read(opt) == None && Opt(Listed(e), opt) == Opt(e.loaded.value, opt)
  {
  }

  lemma ListedIsSection(e: Entry, sid: string)
    requires e.Inv(sid) && e.Shown().Some?
    ensures IsSection(Listed(e), sid)
    ensures forall o :: Dotted(o) ==> Opt(Listed(e), o) == Opt(e.Shown().value, o)
  {
    assert Dotted(".name") && Dotted(".type") && Dotted(".index");
  }

  // ---- resolveSID -------------------------------------------------------------------------

  predicate IsTypeChar(c: char) { IsWordChar(c) || c == '-' }

  function TypeEnd(s: string, i: nat): (k: nat)
    requires i <= |s|
    ensures i <= k <= |s| && (forall j :: i <= j < k ==> IsTypeChar(s[j])) && (k < |s| ==> !IsTypeChar(s[k]))
    decreases |s| - i
  {
    if i < |s| && IsTypeChar(s[i]) then TypeEnd(s, i + 1) else i
  }

  /** "@type[pos]": the type and the position of an anonymous reference. */
  function ParseRef(s: string): Option<(string, int)> {
    if s == "" || s[0] != '@' then None
    else
      var k := TypeEnd(s, 1);
      if k == 1 || k + 1 >= |s| || s[k] != '[' || s[|s| - 1] != ']' then None
      else
        var num := s[k + 1..|s| - 1];
        if num != "" && AllDigits(num) then Some((s[1..k], NatOf(num) as int))
        else if num != "" && num[0] == '-' && |num| > 1 && AllDigits(num[1..]) then Some((s[1..k], -(NatOf(num[1..]) as int)))
        else None
  }

  function Pick(sa: seq<Section>, pos: int): Option<string> {
    var i := if pos >= 0 then pos else |sa| + pos;
    if 0 <= i < |sa| then Some(NameOf(sa[i])) else None
  }

  /** Positions from the end count back from the last section; there is nothing behind either end. */
  lemma RefIsRead(typ: string, n: nat)
    requires typ != "" && forall c :: c in typ ==> IsDigit(c) || IsLetter(c) || c == '_' || c == '-'
    ensures ParseRef("@" + typ + "[" + NatStr(n) + "]") == Some((typ, n as int))
    ensures ParseRef("@" + typ + "[-" + NatStr(n) + "]") == Some((typ, -(n as int)))
  {
    var num := NatStr(n);
    var neg := ['-'] + num;
    assert num != "" && AllDigits(num) && NatOf(num) == n && forall c :: c in typ ==> IsTypeChar(c);
    hide *;
    Dash("@" + typ, num, neg);
    NumberIsRead(typ, num, "@" + typ + "[" + num + "]");
    NegativeIsRead(typ, num, neg, "@" + typ + "[" + neg + "]");
  }

  lemma Dash(x: string, num: string, neg: string)
    requires neg == ['-'] + num
    ensures x + "[-" + num + "]" == x + "[" + neg + "]"
  {
    var s, t := x + "[-" + num + "]", x + "[" + neg + "]";
    forall i | 0 <= i < |s| ensures s[i] == t[i] {}
  }

  lemma NumberIsRead(typ: string, num: string, s: string)
    requires typ != "" && (forall c :: c in typ ==> IsTypeChar(c)) && s == "@" + typ + "[" + num + "]"
    requires num != "" && AllDigits(num)
    ensures ParseRef(s) == Some((typ, NatOf(num) as int))
  {
    BracketIsRead(typ, num, s);
    hide TypeEnd, NatOf, AllDigits;
  }

  lemma NegativeIsRead(typ: string, num: string, neg: string, s: string)
    requires typ != "" && (forall c :: c in typ ==> IsTypeChar(c)) && s == "@" + typ + "[" + neg + "]"
    requires num != "" && AllDigits(num) && neg == ['-'] + num
    ensures ParseRef(s) == Some((typ, -(NatOf(num) as int)))
  {
    BracketIsRead(typ, neg, s);
    assert neg[1..] == num && neg[0] in neg && !AllDigits(neg);
    hide TypeEnd, NatOf, AllDigits;
  }

  lemma BracketIsRead(typ: string, num: string, s: string)
    requires typ != "" && (forall c :: c in typ ==> IsTypeChar(c)) && num != "" && s == "@" + typ + "[" + num + "]"
    ensures TypeEnd(s, 1) == 1 + |typ| && s[1..1 + |typ|] == typ && s[2 + |typ|..|s| - 1] == num
    ensures s != "" && s[0] == '@' && s[1 + |typ|] == '[' && s[|s| - 1] == ']'
  {
    var k := TypeEnd(s, 1);
    assert forall j :: 1 <= j < 1 + |typ| ==> s[j] == typ[j - 1] && typ[j - 1] in typ;
    assert s[1 + |typ|] == '[';
  }

  // ---- move -------------------------------------------------------------------------------

  function Find(names: seq<string>, x: string): (k: nat)
    ensures k <= |names| && (k < |names| ==> names[k] == x) && (k == |names| <==> x !in names)
    ensures forall j :: 0 <= j < k ==> names[j] != x
  {
    if names == [] || names[0] == x then 0 else 1 + Find(names[1..], x)
  }

  /** The names without the first `x`. */
  function Without(names: seq<string>, x: string): seq<string> {
    var k := Find(names, x); if k == |names| then names else names[..k] + names[k + 1..]
  }

  /** The order after a move, unless one of the two sections is missing. */
  function MoveOrder(order: seq<string>, sid1: string, sid2: Option<string>, after: bool): Option<seq<string>> {
    var rest := Without(order, sid1);
    if sid1 !in order then None
    else if sid2.None? then Some(rest + [sid1])
    else
      var k := Find(rest, sid2.value);
      if k == |rest| then None
      else Some(Insert(rest, sid1, if after then k + 1 else k))
  }

  function Insert(rest: seq<string>, x: string, p: nat): seq<string>
    requires p <= |rest|
  {
    rest[..p] + [x] + rest[p..]
  }

  lemma InsertIsMove(rest: seq<string>, x: string, p: nat, m: seq<string>)
    requires DistinctStrings(rest) && x !in rest && p <= |rest| && m == Insert(rest, x, p)
    ensures DistinctStrings(m) && |m| == |rest| + 1 && Find(m, x) == p && Without(m, x) == rest
    ensures forall y :: y in m <==> y == x || y in rest
    ensures (p > 0 ==> m[p - 1] == rest[p - 1]) && (p < |rest| ==> m[p + 1] == rest[p])
  {
    InsertAt(rest, x, p, m);
    FindAt(m, x, p);
    assert m[..p] + m[p + 1..] == rest;
  }

  lemma InsertAt(rest: seq<string>, x: string, p: nat, m: seq<string>)
    requires DistinctStrings(rest) && x !in rest && p <= |rest| && m == Insert(rest, x, p)
    ensures DistinctStrings(m) && |m| == |rest| + 1 && m[p] == x && forall j :: 0 <= j < p ==> m[j] != x
    ensures forall y :: y in m <==> y == x || y in rest
  {
    assert rest == rest[..p] + rest[p..];
    forall i | 0 <= i < |m| ensures m[i] == if i < p then rest[i] else if i == p then x else rest[i - 1] {}
  }

  lemma FindAt(names: seq<string>, x: string, p: nat)
    requires p < |names| && names[p] == x && forall j :: 0 <= j < p ==> names[j] != x
    ensures Find(names, x) == p
  {
    assert x in names;
  }

  lemma WithoutIsRest(order: seq<string>, x: string)
    requires DistinctStrings(order) && x in order
    ensures var rest := Without(order, x);
            DistinctStrings(rest) && x !in rest && |rest| + 1 == |order|
            && forall y :: y in order <==> y == x || y in rest
  {
    var k := Find(order, x);
    assert order == order[..k] + [x] + order[k + 1..];
  }

  /** sid1 lands next to sid2, or last; all other sections keep their relative order. */
  ghost predicate IsMove(order: seq<string>, m: seq<string>, sid1: string, sid2: Option<string>, after: bool) {
    && DistinctStrings(m) && |m| == |order|
    && SameElements(m, order)
    && Without(m, sid1) == Without(order, sid1)
    && var k := Find(m, sid1);
       if sid2.None? then k + 1 == |m|
       else if after then 0 < k <= |m| && m[k - 1] == sid2.value
       else k + 1 < |m| && m[k + 1] == sid2.value
  }

  lemma MoveOrderIsMove(order: seq<string>, sid1: string, sid2: Option<string>, after: bool)
    requires DistinctStrings(order)
    ensures var m := MoveOrder(order, sid1, sid2, after);
            && (m.Some? <==> sid1 in order && (sid2.Some? ==> sid2.value in order && sid2.value != sid1))
            && (m.Some? ==> IsMove(order, m.value, sid1, sid2, after))
  {
    hide IsMove, Without, Find, Insert;
    if sid1 in order {
      WithoutIsRest(order, sid1);
      var rest := Without(order, sid1);
      if sid2.None? {
        InsertLast(order, rest, sid1, after);
      } else if sid2.value in rest {
        var k := Find(rest, sid2.value);
        InsertBeside(order, rest, sid1, sid2.value, if after then k + 1 else k, after);
      }
    }
  }

  lemma InsertLast(order: seq<string>, rest: seq<string>, sid1: string, after: bool)
    requires DistinctStrings(rest) && sid1 !in rest && |rest| + 1 == |order| && Without(order, sid1) == rest
    requires forall y :: y in order <==> y == sid1 || y in rest
    ensures IsMove(order, rest + [sid1], sid1, None, after)
  {
    hide Find, Without;
    InsertIsMove(rest, sid1, |rest|, rest + [sid1]);
  }

  lemma InsertBeside(order: seq<string>, rest: seq<string>, sid1: string, sid2: string, p: nat, after: bool)
    requires DistinctStrings(rest) && sid1 !in rest && |rest| + 1 == |order| && Without(order, sid1) == rest
    requires forall y :: y in order <==> y == sid1 || y in rest
    requires if after then 0 < p <= |rest| && rest[p - 1] == sid2 else p < |rest| && rest[p] == sid2
    ensures IsMove(order, Insert(rest, sid1, p), sid1, Some(sid2), after)
  {
    hide Find, Without;
    InsertIsMove(rest, sid1, p, Insert(rest, sid1, p));
  }

  /** `get(conf, sid)['.index'] = i` on a live section. */
  function Indexed(e: Entry, i: int): Entry {
    if e.created.Some? then e.(created := Some(e.created.value[".index" := Num(i)]))
    else if e.loaded.Some? && !e.Gone() then
      var m := e.Merged(); m.(loaded := Some(m.loaded.value[".index" := Num(i)]))
    else e
  }

  lemma IndexedShows(e: Entry, sid: string, i: int)
    requires e.Inv(sid) && e.Shown().Some?
    ensures Indexed(e, i).Inv(sid)
    ensures Indexed(e, i).Shown() == Some(e.Shown().value[".index" := Num(i)])
    ensures IndexOf(Listed(Indexed(e, i))) == i
  {
    assert Dotted(".index") && Dotted(".name") && Dotted(".type");
    if e.created.None? {
      var v, c, d := e.loaded.value, e.Changes(), e.Deletions();
      MergedShowsTheSame(e, sid);
      assert (v + c - d)[".index" := Num(i)] + c - d == (v + c - d)[".index" := Num(i)];
    }
  }

  /** The first n names get their positions as new indexes. */
  function Renumber(st: State, conf: string, names: seq<string>, n: nat): State
    requires n <= |names|
  {
    if n == 0 then st
    else
      var st' := Renumber(st, conf, names, n - 1);
      WithEntry(st', conf, names[n - 1], Indexed(EntryAt(st', conf, names[n - 1]), n - 1))
  }

  lemma {:induction false} RenumberEntries(st: State, conf: string, names: seq<string>, n: nat, c: string, s: string)
    requires n <= |names| && DistinctStrings(names)
    ensures EntryAt(Renumber(st, conf, names, n), c, s) ==
              if c == conf && s in names[..n] then Indexed(EntryAt(st, c, s), Find(names, s)) else EntryAt(st, c, s)
  {
    hide WithEntry, Indexed, Find, EntryAt;
    if n > 0 {
      RenumberEntries(st, conf, names, n - 1, c, s);
      RenumberEntries(st, conf, names, n - 1, conf, names[n - 1]);
      assert names[..n] == names[..n - 1] + [names[n - 1]];
      FindAt(names, names[n - 1], n - 1);
    }
  }

  ghost predicate AllLive(st: State, conf: string, names: seq<string>) {
    DistinctStrings(names) && forall s :: s in names <==> Listable(st, conf, "", s)
  }

  lemma RenumberKeeps(st: State, conf: string, m: seq<string>)
    requires Inv(st) && AllLive(st, conf, m)
    ensures var st' := Renumber(st, conf, m, |m|);
            && Inv(st') && AllLive(st', conf, m)
            && (forall k :: 0 <= k < |m| ==> Position(st', conf, m[k]) == k)
            && forall c, s :: Shown(st', c, s) ==
                 if c == conf && s in m then Some(Shown(st, c, s).value[".index" := Num(Find(m, s))]) else Shown(st, c, s)
  {
    var st' := Renumber(st, conf, m, |m|);
    assert m[..|m|] == m;
    forall c, s
      ensures EntryAt(st', c, s).Inv(s)
      ensures Shown(st', c, s) ==
                if c == conf && s in m then Some(Shown(st, c, s).value[".index" := Num(Find(m, s))]) else Shown(st, c, s)
      ensures c == conf && s in m ==> Position(st', c, s) == Find(m, s)
    {
      RenumberEntries(st, conf, m, |m|, c, s);
      assert EntryAt(st, c, s).Inv(s);
      if c == conf && s in m {
        assert Listable(st, conf, "", s);
        IndexedShows(EntryAt(st, c, s), s, Find(m, s));
      }
    }
    assert m != [] ==> m[0] in m && Listable(st, conf, "", m[0]);
    RenumberPackages(st, conf, m, |m|);
    forall k | 0 <= k < |m| ensures Position(st', conf, m[k]) == k { FindAt(m, m[k], k); }
  }

  lemma RenumberInv(st: State, conf: string, m: seq<string>, n: nat)
    requires Inv(st) && AllLive(st, conf, m) && n <= |m|
    ensures Inv(Renumber(st, conf, m, n))
  {
    var st' := Renumber(st, conf, m, n);
    forall c, s ensures EntryAt(st', c, s).Inv(s) {
      RenumberEntries(st, conf, m, n, c, s);
      assert EntryAt(st, c, s).Inv(s);
      if c == conf && s in m[..n] {
        assert s in m && Listable(st, conf, "", s);
        IndexedShows(EntryAt(st, c, s), s, Find(m, s));
      }
    }
  }

  lemma {:induction false} RenumberPackages(st: State, conf: string, m: seq<string>, n: nat)
    requires n <= |m| && (n == 0 || conf in st.values)
    ensures Renumber(st, conf, m, n).values.Keys == st.values.Keys
  {
    if n > 0 { RenumberPackages(st, conf, m, n - 1); }
  }

  lemma {:induction false} RenumberFrame(st: State, conf: string, names: seq<string>, n: nat)
    requires n <= |names|
    ensures var st' := Renumber(st, conf, names, n); st'.reorder == st.reorder && st'.newidx == st.newidx
  {
    if n > 0 { RenumberFrame(st, conf, names, n - 1); }
  }

  /** After a move, the live sections are listed in the moved order. */
  lemma RenumberedListing(st: State, conf: string, m: seq<string>, sa: seq<Section>)
    requires Inv(st) && AllLive(st, conf, m)
    requires IsListing(Renumber(st, conf, m, |m|), conf, "", sa)
    ensures NamesOf(sa) == m
  {
    var st' := Renumber(st, conf, m, |m|);
    RenumberKeeps(st, conf, m);
    PositionsSort(st', conf, m);
    SortedUnique(m, NamesOf(sa), s => Position(st', conf, s));
  }

  lemma PositionsSort(st: State, conf: string, m: seq<string>)
    requires forall k :: 0 <= k < |m| ==> Position(st, conf, m[k]) == k
    ensures SortedBy(m, s => Position(st, conf, s)) && InjectiveOn(m, s => Position(st, conf, s))
  {
  }

  // ---- new sections sort last -----------------------------------------------------------------

  lemma IndexIsMeta(e: Entry, sid: string)
    requires e.Inv(sid) && e.Shown().Some?
    ensures IndexOf(Listed(e)) == IndexOf(e.Shown().value)
  {
    assert Dotted(".index");
  }

  ghost predicate IndexesBelow(st: State, bound: int) {
    forall c, s :: Live(st, c, s) ==> IndexOf(Shown(st, c, s).value) < bound
  }

  lemma SetKeepsIndex(e: Entry, sid: string, opt: string, val: Option<Value>)
    requires e.Inv(sid) && e.Shown().Some?
    ensures e.With(opt, val).Shown().Some? && IndexOf(e.With(opt, val).Shown().value) == IndexOf(e.Shown().value)
  {
    assert Dotted(".index");
    WithIsPlain(e, sid, opt, val);
  }

  lemma EditKeepsIndex(e: Entry, sid: string, op: Op, bound: int)
    requires e.Inv(sid) && (e.Shown().Some? ==> IndexOf(e.Shown().value) < bound) && !op.Add?
    ensures var e' := match op
                      case Remove(_, _) => e.Removed()
                      case Set(_, _, opt, val) => e.With(opt, val)
                      case _ => e.Merged();
            e'.Shown().Some? ==> IndexOf(e'.Shown().value) < bound
  {
    match op
    case Remove(_, _) => RemovedIsPlain(e, sid);
    case Set(_, _, opt, val) =>
      WithIsPlain(e, sid, opt, val);
      if e.Shown().Some? { SetKeepsIndex(e, sid, opt, val); }
    case ReadSection(_, _) => MergedShowsTheSame(e, sid);
  }

  lemma StepKeepsIndexes(st: State, op: Op)
    requires Inv(st) && Allowed(st, op) && IndexesBelow(st, 1000 + st.newidx)
    ensures IndexesBelow(Step(st, op), 1000 + Step(st, op).newidx)
  {
    var st' := Step(st, op);
    forall c, s | Live(st', c, s) ensures IndexOf(Shown(st', c, s).value) < 1000 + st'.newidx {
      StepEntries(st, op, c, s);
      var e := EntryAt(st, c, s);
      assert e.Inv(s) && (e.Shown().Some? ==> Live(st, c, s));
      if !op.Add? { EditKeepsIndex(e, s, op, 1000 + st.newidx); }
    }
  }

  /** A move keeps the bound as long as there are not more live sections than the bound itself. */
  lemma MoveKeepsIndexes(st: State, conf: string, m: seq<string>)
    requires Inv(st) && AllLive(st, conf, m) && IndexesBelow(st, 1000 + st.newidx) && |m| <= 1000 + st.newidx
    ensures IndexesBelow(Renumber(st, conf, m, |m|), 1000 + st.newidx)
  {
    var st' := Renumber(st, conf, m, |m|);
    RenumberKeeps(st, conf, m);
    forall c, s | Live(st', c, s) ensures IndexOf(Shown(st', c, s).value) < 1000 + st.newidx {
      assert c == conf && s in m ==> Listable(st, c, "", s);
      assert Live(st, c, s);
    }
  }

  lemma AddSortsLast(st: State, conf: string, typ: string, sid: string, named: bool, sa: seq<Section>)
    requires Inv(st) && !Live(st, conf, sid) && conf in st.values && IndexesBelow(st, 1000 + st.newidx)
    requires IsListing(AddSection(st, conf, typ, sid, named), conf, "", sa)
    ensures sa != [] && NameOf(sa[|sa| - 1]) == sid
  {
    var st' := AddSection(st, conf, typ, sid, named);
    assert st' == Step(st, Add(conf, typ, sid, named));
    StepEntries(st, Add(conf, typ, sid, named), conf, sid);
    assert Listable(st', conf, "", sid) && sid in NamesOf(sa);
    var names := NamesOf(sa);
    var k :| 0 <= k < |sa| && names[k] == sid;
    var last := names[|sa| - 1];
    assert last in names && Listable(st', conf, "", last);
    assert k == |sa| - 1 || Position(st', conf, names[k]) <= Position(st', conf, last);
    OldSortsBelow(st, conf, typ, sid, named, last);
  }

  lemma OldSortsBelow(st: State, conf: string, typ: string, sid: string, named: bool, s: string)
    requires Inv(st) && !Live(st, conf, sid) && IndexesBelow(st, 1000 + st.newidx)
    requires Live(AddSection(st, conf, typ, sid, named), conf, s)
    ensures var st' := AddSection(st, conf, typ, sid, named);
            Position(st', conf, s) <= Position(st', conf, sid) && (s != sid ==> Position(st', conf, s) < Position(st', conf, sid))
  {
    var op := Add(conf, typ, sid, named);
    assert AddSection(st, conf, typ, sid, named) == Step(st, op);
    StepEntries(st, op, conf, s);
    StepEntries(st, op, conf, sid);
    if s != sid {
      assert EntryAt(st, conf, s).Inv(s) && Live(st, conf, s);
      IndexIsMeta(EntryAt(st, conf, s), s);
    }
  }
}
