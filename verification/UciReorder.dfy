/** The end of a save: new sections take their names from the replies, then the order of moved packages is sent. */
module UciReorder {
  import opened Common
  import opened UciState
  import opened UciRuns
  import opened UciOrder
  import opened UciMoves
  import opened UciSave

  // ---- The replies ----------------------------------------------------------------------------

  /** Adding a section is answered by its name; deleting and setting are answered by the status 0. */
  ghost predicate AreReplies(replies: seq<Value>, ds: seq<Call>, cs: seq<Call>, us: seq<Call>) {
    && |replies| == |ds| + |cs| + |us|
    && forall i :: 0 <= i < |replies| ==>
         if |ds| <= i < |ds| + |cs| then replies[i].Str? else replies[i] == Num(0)
  }

  /** Sections that were given a name are answered by that name. */
  ghost predicate NamesKept(replies: seq<Value>, ds: seq<Call>, cs: seq<Call>) {
    |ds| + |cs| <= |replies| && forall i :: 0 <= i < |cs| ==> replies[|ds| + i] == Str(cs[i].id.sid)
  }

  function CallIndex(cs: seq<Call>, id: Id): (k: nat)
    ensures k <= |cs| && (k < |cs| ==> cs[k].id == id)
    ensures forall j :: 0 <= j < k ==> cs[j].id != id
  {
    if cs == [] || cs[0].id == id then 0 else 1 + CallIndex(cs[1..], id)
  }

  lemma CallIndexAt(cs: seq<Call>, k: nat)
    requires Distinct(cs) && k < |cs|
    ensures CallIndex(cs, cs[k].id) == k
  {
  }

  // ---- What is sent -----------------------------------------------------------------------------

  /** One of the objects that are collected for the order: a created section or a loaded one. */
  datatype Obj = Obj(created: bool, sid: string)

  function Held(st: State, conf: string, x: Obj): Option<Section> {
    if x.created then EntryAt(st, conf, x.sid).created else EntryAt(st, conf, x.sid).loaded
  }

  function ObjIndex(st: State, conf: string, x: Obj): int {
    if Held(st, conf, x).Some? then IndexOf(Held(st, conf, x).value) else 0
  }

  ghost predicate DistinctObjs(o: seq<Obj>) { forall i, j :: 0 <= i < j < |o| ==> o[i] != o[j] }

  ghost predicate SortedObjs(st: State, conf: string, o: seq<Obj>) {
    forall i, j :: 0 <= i < j < |o| ==> ObjIndex(st, conf, o[i]) <= ObjIndex(st, conf, o[j])
  }

  /** All created and all loaded sections, deleted ones included, each once, by index. */
  ghost predicate IsSentOrder(st: State, conf: string, o: seq<Obj>) {
    && DistinctObjs(o) && SortedObjs(st, conf, o)
    && forall x {:trigger x in o} :: x in o <==> Held(st, conf, x).Some?
  }

  /** The name of an object when the i-th new section is called `names[i]`. */
  function NameUnder(names: seq<Value>, cs: seq<Call>, conf: string, x: Obj): Value {
    var k := CallIndex(cs, Id(conf, x.sid));
    if x.created && k < |cs| && k < |names| then names[k] else Str(x.sid)
  }

  function NamesUnder(names: seq<Value>, cs: seq<Call>, conf: string, o: seq<Obj>): (r: seq<Value>)
    ensures |r| == |o| && forall i :: 0 <= i < |o| ==> r[i] == NameUnder(names, cs, conf, o[i])
  {
    seq(|o|, i requires 0 <= i < |o| => NameUnder(names, cs, conf, o[i]))
  }

  /** The object that the reads show under the name of a live section. */
  function LiveObj(st: State, conf: string, s: string): Obj { Obj(EntryAt(st, conf, s).created.Some?, s) }

  function LiveObjsOf(st: State, conf: string, m: seq<string>): (r: seq<Obj>)
    ensures |r| == |m| && forall i :: 0 <= i < |m| ==> r[i] == LiveObj(st, conf, m[i])
  {
    seq(|m|, i requires 0 <= i < |m| => LiveObj(st, conf, m[i]))
  }

  predicate IsLive(st: State, conf: string, x: Obj) { Live(st, conf, x.sid) && x == LiveObj(st, conf, x.sid) }

  function OnlyLive(st: State, conf: string, o: seq<Obj>): seq<Obj> {
    if o == [] then [] else (if IsLive(st, conf, o[0]) then [o[0]] else []) + OnlyLive(st, conf, o[1..])
  }

  lemma HeadOfObjs(st: State, conf: string, o: seq<Obj>)
    requires o != [] && DistinctObjs(o) && SortedObjs(st, conf, o)
    ensures DistinctObjs(o[1..]) && SortedObjs(st, conf, o[1..])
    ensures forall x :: x in o <==> x == o[0] || x in o[1..]
    ensures forall x :: x in o[1..] ==> x != o[0] && ObjIndex(st, conf, o[0]) <= ObjIndex(st, conf, x)
  {
    hide ObjIndex;
    assert o == [o[0]] + o[1..];
    forall x | x in o[1..] ensures x != o[0] && ObjIndex(st, conf, o[0]) <= ObjIndex(st, conf, x) {
      var j :| 0 <= j < |o[1..]| && o[1..][j] == x;
      assert o[j + 1] == x;
    }
  }

  lemma ObjBefore(st: State, conf: string, x: Obj, l: seq<Obj>)
    requires DistinctObjs(l) && SortedObjs(st, conf, l)
    requires forall y :: y in l ==> y != x && ObjIndex(st, conf, x) <= ObjIndex(st, conf, y)
    ensures DistinctObjs([x] + l) && SortedObjs(st, conf, [x] + l)
  {
    hide ObjIndex;
    var m := [x] + l;
    forall i, j | 0 <= i < j < |m| ensures m[i] != m[j] && ObjIndex(st, conf, m[i]) <= ObjIndex(st, conf, m[j]) {
      assert m[j] == l[j - 1] && m[j] in l;
      if i > 0 { assert m[i] == l[i - 1]; }
    }
  }

  lemma {:induction false} OnlyLiveSorted(st: State, conf: string, o: seq<Obj>)
    requires DistinctObjs(o) && SortedObjs(st, conf, o)
    ensures var l := OnlyLive(st, conf, o);
            DistinctObjs(l) && SortedObjs(st, conf, l) && forall x :: x in l <==> x in o && IsLive(st, conf, x)
  {
    if o == [] {
    } else {
      hide IsLive, ObjIndex, DistinctObjs, SortedObjs;
      HeadOfObjs(st, conf, o);
      OnlyLiveSorted(st, conf, o[1..]);
      var rest := OnlyLive(st, conf, o[1..]);
      if IsLive(st, conf, o[0]) {
        ObjBefore(st, conf, o[0], rest);
        assert OnlyLive(st, conf, o) == [o[0]] + rest;
      } else {
        assert OnlyLive(st, conf, o) == [] + rest == rest;
      }
    }
  }

  function Sids(o: seq<Obj>): (r: seq<string>)
    ensures |r| == |o| && forall i :: 0 <= i < |o| ==> r[i] == o[i].sid
  {
    seq(|o|, i requires 0 <= i < |o| => o[i].sid)
  }

  /** The index of the object that a live section stands for. */
  function LiveIndexOf(st: State, conf: string, s: string): int { ObjIndex(st, conf, LiveObj(st, conf, s)) }

  /** The live sections in the order of their indexes, which are all different. */
  ghost predicate InOrder(st: State, conf: string, m: seq<string>) {
    && DistinctStrings(m) && (forall s :: s in m <==> Live(st, conf, s))
    && SortedBy(m, s => LiveIndexOf(st, conf, s)) && InjectiveOn(m, s => LiveIndexOf(st, conf, s))
  }

  lemma MovedInOrder(st: State, conf: string, m: seq<string>, st': State)
    requires Inv(st) && AllLive(st, conf, m) && m != [] && st' == Moved(st, conf, m)
    ensures Inv(st') && InOrder(st', conf, m)
  {
    MovedIndexes(st, conf, m, st');
    FindSorts(m);
    DoInv(st, Move(conf, m));
    hide Live, ObjIndex, LiveObj, Moved, Inv, Find, SortedBy, InjectiveOn;
    SameKeys(m, s => Find(m, s), s => LiveIndexOf(st', conf, s));
  }

  lemma SameKeys(m: seq<string>, key: string -> int, other: string -> int)
    requires SortedBy(m, key) && InjectiveOn(m, key) && forall s :: s in m ==> key(s) == other(s)
    ensures SortedBy(m, other) && InjectiveOn(m, other)
  {
    forall i | 0 <= i < |m| ensures key(m[i]) == other(m[i]) { assert m[i] in m; }
  }

  /** The objects of the live sections are sent in their order, whatever was deleted or created again. */
  lemma LiveObjsInOrder(st: State, conf: string, m: seq<string>, o: seq<Obj>)
    requires Inv(st) && InOrder(st, conf, m) && IsSentOrder(st, conf, o)
    ensures OnlyLive(st, conf, o) == LiveObjsOf(st, conf, m)
  {
    var l := OnlyLive(st, conf, o);
    OnlyLiveSorted(st, conf, o);
    forall s | s in m ensures Held(st, conf, LiveObj(st, conf, s)).Some? {
      assert Live(st, conf, s) && EntryAt(st, conf, s).Inv(s);
      LiveIndex(EntryAt(st, conf, s), s);
    }
    hide Inv, OnlyLive, SortedObjs, DistinctObjs;
    SortedInOrder(st, conf, m, o, l);
  }

  lemma SortedInOrder(st: State, conf: string, m: seq<string>, o: seq<Obj>, l: seq<Obj>)
    requires InOrder(st, conf, m) && DistinctObjs(l) && SortedObjs(st, conf, l)
    requires forall s :: s in m ==> Held(st, conf, LiveObj(st, conf, s)).Some?
    requires forall x {:trigger x in o} :: x in o <==> Held(st, conf, x).Some?
    requires forall x :: x in l <==> x in o && IsLive(st, conf, x)
    ensures l == LiveObjsOf(st, conf, m)
  {
    hide Live, Held, ObjIndex, LiveObj;
    forall i, j | 0 <= i < j < |l| ensures l[i].sid != l[j].sid { assert l[i] in l && l[j] in l; }
    forall s ensures s in Sids(l) <==> s in m { LiveIsIn(st, conf, m, o, l, s); }
    forall i | 0 <= i < |l| ensures ObjIndex(st, conf, l[i]) == LiveIndexOf(st, conf, l[i].sid) { assert l[i] in l; }
    SortedUnique(m, Sids(l), s => LiveIndexOf(st, conf, s));
    forall i | 0 <= i < |l| ensures l[i] == LiveObj(st, conf, m[i]) { assert l[i] in l && Sids(l)[i] == m[i]; }
  }

  /** After a move this is the moved order. */
  lemma LiveObjsAreMoved(st: State, conf: string, m: seq<string>, st': State, o: seq<Obj>)
    requires Inv(st) && AllLive(st, conf, m) && m != [] && st' == Moved(st, conf, m) && IsSentOrder(st', conf, o)
    ensures OnlyLive(st', conf, o) == LiveObjsOf(st', conf, m)
  {
    hide *;
    MovedInOrder(st, conf, m, st');
    LiveObjsInOrder(st', conf, m, o);
  }

  lemma MovedIndexes(st: State, conf: string, m: seq<string>, st': State)
    requires Inv(st) && AllLive(st, conf, m) && m != [] && st' == Moved(st, conf, m)
    ensures forall s :: s in m <==> Live(st', conf, s)
    ensures forall s :: s in m ==> Held(st', conf, LiveObj(st', conf, s)).Some?
    ensures forall s :: s in m ==> ObjIndex(st', conf, LiveObj(st', conf, s)) == Find(m, s)
  {
    hide Moved;
    assert m[0] in m && Listable(st, conf, "", m[0]);
    forall s
      ensures s in m <==> Live(st', conf, s)
      ensures s in m ==> Held(st', conf, LiveObj(st', conf, s)).Some?
                         && ObjIndex(st', conf, LiveObj(st', conf, s)) == Find(m, s)
    {
      MovedShows(st, conf, m, conf, s);
      assert s in m <==> Listable(st, conf, "", s);
      if s in m { LiveIndex(EntryAt(st', conf, s), s); }
    }
  }

  lemma LiveIndex(e: Entry, sid: string)
    requires e.Inv(sid) && e.Shown().Some?
    ensures var held := if e.created.Some? then e.created else e.loaded;
            held.Some? && IndexOf(held.value) == IndexOf(e.Shown().value)
  {
    assert Dotted(".index");
  }

  lemma LiveIsIn(st: State, conf: string, m: seq<string>, o: seq<Obj>, l: seq<Obj>, s: string)
    requires (s in m <==> Live(st, conf, s)) && (s in m ==> Held(st, conf, LiveObj(st, conf, s)).Some?)
    requires forall x {:trigger x in o} :: x in o <==> Held(st, conf, x).Some?
    requires forall x :: x in l <==> x in o && IsLive(st, conf, x)
    ensures s in Sids(l) <==> s in m
  {
    if s in m {
      assert LiveObj(st, conf, s) in o && LiveObj(st, conf, s) in l;
      var i :| 0 <= i < |l| && l[i] == LiveObj(st, conf, s);
      assert Sids(l)[i] == s;
    }
    if s in Sids(l) {
      var i :| 0 <= i < |l| && Sids(l)[i] == s;
      assert l[i] in l;
    }
  }

  lemma FindSorts(m: seq<string>)
    requires DistinctStrings(m)
    ensures SortedBy(m, s => Find(m, s)) && InjectiveOn(m, s => Find(m, s))
  {
    forall i | 0 <= i < |m| ensures Find(m, m[i]) == i { FindAt(m, m[i], i); }
  }

  // ---- When the order that is sent is the moved one -----------------------------------------------

  /**
   * The live sections are sent in the moved order, each by the name it has on the server (`own`), and no
   * deleted section is sent by one of these names.  `taken` are the replies that the client writes down as names.
   */
  ghost predicate SentAsMoved(st: State, conf: string, m: seq<string>, o: seq<Obj>, cs: seq<Call>,
                              taken: seq<Value>, own: seq<Value>) {
    var moved := NamesUnder(own, cs, conf, LiveObjsOf(st, conf, m));
    && NamesUnder(taken, cs, conf, OnlyLive(st, conf, o)) == moved
    && forall x :: x in o && !IsLive(st, conf, x) ==> NameUnder(taken, cs, conf, x) !in moved
  }

  /** No section that is live has on the server the name of a deleted one. */
  ghost predicate NoneReused(st: State, conf: string, m: seq<string>, cs: seq<Call>, own: seq<Value>) {
    forall s :: EntryAt(st, conf, s).Gone() ==> Str(s) !in NamesUnder(own, cs, conf, LiveObjsOf(st, conf, m))
  }

  /** Each new section of the package took the reply to its own call. */
  ghost predicate OwnReplies(conf: string, cs: seq<Call>, taken: seq<Value>, own: seq<Value>)
    requires |taken| >= |cs| && |own| >= |cs|
  {
    forall i :: 0 <= i < |cs| && cs[i].id.conf == conf ==> taken[i] == own[i]
  }

  /** The order that is sent is that of the live sections exactly under these two conditions. */
  lemma SentInOrder(st: State, conf: string, m: seq<string>, o: seq<Obj>, cs: seq<Call>, taken: seq<Value>, own: seq<Value>)
    requires Inv(st) && InOrder(st, conf, m) && IsSentOrder(st, conf, o)
    requires Enumerates(cs, st, Creates) && |taken| >= |cs| && |own| >= |cs|
    ensures SentAsMoved(st, conf, m, o, cs, taken, own) <==>
            OwnReplies(conf, cs, taken, own) && NoneReused(st, conf, m, cs, own)
  {
    LiveObjsInOrder(st, conf, m, o);
    DeadNames(st, conf, o, cs, taken);
    assert forall s :: s in m <==> Live(st, conf, s);
    NewNames(st, conf, m, cs, taken, own);
    hide Inv, InOrder, Enumerates, OwnReplies, IsLive, NameUnder, EntryAt, OnlyLive;
  }

  /** After a move that is the moved order. */
  lemma SentOrderIsMoved(st: State, conf: string, m: seq<string>, st': State, o: seq<Obj>, cs: seq<Call>,
                         taken: seq<Value>, own: seq<Value>)
    requires Inv(st) && AllLive(st, conf, m) && m != [] && st' == Moved(st, conf, m) && IsSentOrder(st', conf, o)
    requires Enumerates(cs, st', Creates) && |taken| >= |cs| && |own| >= |cs|
    ensures SentAsMoved(st', conf, m, o, cs, taken, own) <==>
            OwnReplies(conf, cs, taken, own) && NoneReused(st', conf, m, cs, own)
  {
    hide *;
    MovedInOrder(st, conf, m, st');
    SentInOrder(st', conf, m, o, cs, taken, own);
  }

  /** The objects that are not live are the loaded sections that were deleted; they keep their names. */
  lemma DeadNames(st: State, conf: string, o: seq<Obj>, cs: seq<Call>, taken: seq<Value>)
    requires Inv(st) && IsSentOrder(st, conf, o)
    ensures forall x :: x in o && !IsLive(st, conf, x) ==>
              EntryAt(st, conf, x.sid).Gone() && NameUnder(taken, cs, conf, x) == Str(x.sid)
    ensures forall s :: EntryAt(st, conf, s).Gone() ==> Obj(false, s) in o && !IsLive(st, conf, Obj(false, s))
  {
    forall x | x in o && !IsLive(st, conf, x)
      ensures EntryAt(st, conf, x.sid).Gone() && NameUnder(taken, cs, conf, x) == Str(x.sid)
    {
      assert EntryAt(st, conf, x.sid).Inv(x.sid) && Held(st, conf, x).Some?;
    }
    forall s | EntryAt(st, conf, s).Gone() ensures Obj(false, s) in o && !IsLive(st, conf, Obj(false, s)) {
      assert EntryAt(st, conf, s).Inv(s) && Held(st, conf, Obj(false, s)).Some?;
    }
  }

  lemma NewNames(st: State, conf: string, m: seq<string>, cs: seq<Call>, taken: seq<Value>, own: seq<Value>)
    requires Inv(st) && Enumerates(cs, st, Creates) && |taken| >= |cs| && |own| >= |cs|
    requires forall s :: s in m <==> Live(st, conf, s)
    ensures NamesUnder(taken, cs, conf, LiveObjsOf(st, conf, m)) == NamesUnder(own, cs, conf, LiveObjsOf(st, conf, m)) <==>
            OwnReplies(conf, cs, taken, own)
  {
    var objs := LiveObjsOf(st, conf, m);
    if OwnReplies(conf, cs, taken, own) {
      forall i | 0 <= i < |m| ensures NameUnder(taken, cs, conf, objs[i]) == NameUnder(own, cs, conf, objs[i]) {}
    }
    if NamesUnder(taken, cs, conf, objs) == NamesUnder(own, cs, conf, objs) {
      forall i | 0 <= i < |cs| && cs[i].id.conf == conf ensures taken[i] == own[i] {
        var s := cs[i].id.sid;
        assert CallFor(st, Creates, cs[i].id) == Some(cs[i]) && Live(st, conf, s);
        var k :| 0 <= k < |m| && m[k] == s;
        CallIndexAt(cs, i);
        assert objs[k] == Obj(true, s) && NamesUnder(taken, cs, conf, objs)[k] == taken[i];
        assert NamesUnder(own, cs, conf, objs)[k] == own[i];
      }
    }
  }

  /** The first condition, read off the calls: delete calls come first and are answered by 0. */
  lemma OwnRepliesIff(conf: string, replies: seq<Value>, ds: seq<Call>, cs: seq<Call>, us: seq<Call>)
    requires AreReplies(replies, ds, cs, us)
    ensures OwnReplies(conf, cs, replies, replies[|ds|..]) <==>
            ds == [] || forall i :: 0 <= i < |cs| && cs[i].id.conf == conf ==> |ds| <= i && replies[i] == replies[|ds| + i]
  {
    OwnRepliesShift(conf, replies, |ds|, cs, replies[|ds|..]);
    if ds != [] {
      forall i | 0 <= i < |cs| && replies[i] == replies[|ds| + i] ensures |ds| <= i { assert replies[i].Str?; }
    }
  }

  lemma OwnRepliesShift(conf: string, replies: seq<Value>, n: nat, cs: seq<Call>, own: seq<Value>)
    requires n + |cs| <= |replies| && own == replies[n..]
    ensures OwnReplies(conf, cs, replies, own) <==>
            forall i :: 0 <= i < |cs| && cs[i].id.conf == conf ==> replies[i] == replies[n + i]
  {
    forall i | 0 <= i < |cs| ensures own[i] == replies[n + i] {}
  }

  /** When all new sections get different names, this means: nothing is deleted, or nothing is created in the package. */
  lemma OwnRepliesNone(conf: string, replies: seq<Value>, ds: seq<Call>, cs: seq<Call>, us: seq<Call>)
    requires AreReplies(replies, ds, cs, us)
    requires forall i, j :: |ds| <= i < j < |ds| + |cs| ==> replies[i] != replies[j]
    ensures OwnReplies(conf, cs, replies, replies[|ds|..]) <==>
            ds == [] || forall i :: 0 <= i < |cs| ==> cs[i].id.conf != conf
  {
    OwnRepliesIff(conf, replies, ds, cs, us);
  }

  ghost predicate NoneRecreated(st: State, conf: string) {
    forall s :: !(EntryAt(st, conf, s).created.Some? && EntryAt(st, conf, s).loaded.Some?)
  }

  lemma KeptName(replies: seq<Value>, ds: seq<Call>, cs: seq<Call>, conf: string, x: Obj)
    requires NamesKept(replies, ds, cs)
    ensures NameUnder(replies[|ds|..], cs, conf, x) == Str(x.sid)
  {
    var k := CallIndex(cs, Id(conf, x.sid));
    if k < |cs| { assert replies[|ds|..][k] == replies[|ds| + k] == Str(cs[k].id.sid); }
  }

  /** The second condition when new sections keep the names they were given: no deleted name was created again. */
  lemma NoneReusedIff(st: State, conf: string, m: seq<string>, replies: seq<Value>, ds: seq<Call>, cs: seq<Call>)
    requires Inv(st) && Enumerates(cs, st, Creates) && NamesKept(replies, ds, cs)
    requires forall s :: s in m <==> Live(st, conf, s)
    ensures NoneReused(st, conf, m, cs, replies[|ds|..]) <==> NoneRecreated(st, conf)
  {
    var own, objs := replies[|ds|..], LiveObjsOf(st, conf, m);
    forall i | 0 <= i < |m| ensures NameUnder(own, cs, conf, objs[i]) == Str(m[i]) {
      KeptName(replies, ds, cs, conf, objs[i]);
    }
    hide NameUnder, CallIndex, NamesKept, Enumerates;
    forall s ensures EntryAt(st, conf, s).Gone() && Str(s) in NamesUnder(own, cs, conf, objs) <==>
                     EntryAt(st, conf, s).created.Some? && EntryAt(st, conf, s).loaded.Some?
    {
      assert EntryAt(st, conf, s).Inv(s);
      if Str(s) in NamesUnder(own, cs, conf, objs) {
        var i :| 0 <= i < |m| && NamesUnder(own, cs, conf, objs)[i] == Str(s);
        assert m[i] == s && s in m;
      }
      if EntryAt(st, conf, s).created.Some? {
        assert Live(st, conf, s);
        var i :| 0 <= i < |m| && m[i] == s;
        assert NamesUnder(own, cs, conf, objs)[i] == Str(s);
      }
    }
  }

  // ---- Where it goes wrong ------------------------------------------------------------------------

  ghost predicate NothingPending(st: State) {
    forall c, s {:trigger EntryAt(st, c, s)} ::
      var e := EntryAt(st, c, s); e.created.None? && e.changed.None? && e.deleted.None?
  }

  /** Unset an option of section a, add a section n, move it before a. */
  function UnsetAddMove(conf: string, a: string, b: string, n: string, typ: string, opt: string): seq<Act> {
    [Edit(Set(conf, a, opt, None)), Edit(Add(conf, typ, n, true)), Move(conf, [n, a, b])]
  }

  /** One entry after these two edits. */
  lemma UnsetAddEntry(st: State, conf: string, a: string, n: string, typ: string, opt: string,
                      st1: State, st2: State, c: string, s: string)
    requires Inv(st) && NothingPending(st) && !Dotted(opt) && a != n
    requires Opt(Shown(st, conf, a).GetOr(map[]), opt).Some?
    requires st1 == Step(st, Set(conf, a, opt, None)) && st2 == Step(st1, Add(conf, typ, n, true))
    ensures EntryAt(st2, c, s).created.Some? <==> c == conf && s == n
    ensures !EntryAt(st2, c, s).Gone() && (Live(st2, c, s) <==> Live(st, c, s) || (c == conf && s == n))
    ensures Live(st1, c, s) <==> Live(st, c, s)
    ensures c == conf && s == a ==> EntryAt(st2, c, s).deleted.Some?
  {
    var e := EntryAt(st, c, s);
    StepEntries(st, Set(conf, a, opt, None), c, s);
    StepEntries(st1, Add(conf, typ, n, true), c, s);
    hide Step, EntryAt;
    assert e.created.None? && e.deleted.None? && e.changed.None? && e.Inv(s);
  }

  lemma UnsetAddMoveState(st: State, conf: string, m: seq<string>, a: string, n: string, typ: string, opt: string,
                          st1: State, st2: State)
    requires Inv(st) && NothingPending(st) && AllLive(st, conf, m) && !Live(st, conf, n) && !Dotted(opt)
    requires a in m && conf in st.values && a != n && Opt(Shown(st, conf, a).GetOr(map[]), opt).Some?
    requires st1 == Step(st, Set(conf, a, opt, None)) && st2 == Step(st1, Add(conf, typ, n, true))
    ensures Inv(st1) && !Live(st1, conf, n) && Inv(st2) && AllLive(st2, conf, [n] + m)
    ensures (forall s :: EntryAt(st2, conf, s).created.Some? <==> s == n)
    ensures (forall c, s :: EntryAt(st2, c, s).created.Some? ==> c == conf)
    ensures (forall s :: !EntryAt(st2, conf, s).Gone()) && EntryAt(st2, conf, a).deleted.Some?
  {
    hide Step, Shown, EntryAt, Entry.Gone, Inv, NothingPending, AllLive;
    StepEntries(st, Set(conf, a, opt, None), "", "");
    StepEntries(st1, Add(conf, typ, n, true), "", "");
    StepInv(st, Set(conf, a, opt, None));
    forall c, s
      ensures EntryAt(st2, c, s).created.Some? <==> c == conf && s == n
      ensures !EntryAt(st2, c, s).Gone() && (Live(st2, c, s) <==> Live(st, c, s) || (c == conf && s == n))
      ensures Live(st1, c, s) <==> Live(st, c, s)
      ensures c == conf && s == a ==> EntryAt(st2, c, s).deleted.Some?
    {
      UnsetAddEntry(st, conf, a, n, typ, opt, st1, st2, c, s);
    }
    StepInv(st1, Add(conf, typ, n, true));
    AddedInFront(st, conf, m, n, st2);
  }

  lemma AddedInFront(st: State, conf: string, m: seq<string>, n: string, st': State)
    requires AllLive(st, conf, m) && conf in st'.values && conf in st.values && !Live(st, conf, n)
    requires forall s :: Live(st', conf, s) <==> Live(st, conf, s) || s == n
    ensures AllLive(st', conf, [n] + m)
  {
    hide Live;
    forall s ensures s in [n] + m <==> Listable(st', conf, "", s) { assert s in m <==> Listable(st, conf, "", s); }
    assert n !in m by { assert n in m ==> Listable(st, conf, "", n); }
  }

  /**
   * The order is lost although no name is created again: unset an option of a section, add a section and move it
   * to the front.  The delete call is answered by 0, which the new section takes for its name.
   */
  lemma UnsetLosesOrder(st: State, conf: string, a: string, b: string, n: string, typ: string, opt: string,
                        ds: seq<Call>, cs: seq<Call>, us: seq<Call>, replies: seq<Value>, o: seq<Obj>)
    requires Inv(st) && NothingPending(st) && AllLive(st, conf, [a, b]) && !Live(st, conf, n) && !Dotted(opt)
    requires Opt(Shown(st, conf, a).GetOr(map[]), opt).Some?
    requires var st' := DoAll(st, UnsetAddMove(conf, a, b, n, typ, opt));
             && Enumerates(ds, st', Deletes) && Enumerates(cs, st', Creates) && AreReplies(replies, ds, cs, us)
             && NamesKept(replies, ds, cs) && IsSentOrder(st', conf, o)
    ensures PossibleRun(st, UnsetAddMove(conf, a, b, n, typ, opt))
    ensures NoneRecreated(DoAll(st, UnsetAddMove(conf, a, b, n, typ, opt)), conf)
    ensures NamesUnder(replies[|ds|..], cs, conf, o) == [Str(n), Str(a), Str(b)]
    ensures NamesUnder(replies, cs, conf, o) == [Num(0), Str(a), Str(b)]
  {
    hide Step, Moved, IsSentOrder, AreReplies, NamesKept, Enumerates, NamesUnder, Inv, Shown, EntryAt, NothingPending;
    var st1 := Step(st, Set(conf, a, opt, None));
    var st2, m := Step(st1, Add(conf, typ, n, true)), [n, a, b];
    assert a in [a, b] && Listable(st, conf, "", a);
    UnsetAddMoveState(st, conf, [a, b], a, n, typ, opt, st1, st2);
    assert [n] + [a, b] == m;
    DoFirst(st, Edit(Set(conf, a, opt, None)), [Edit(Add(conf, typ, n, true)), Move(conf, m)]);
    DoFirst(st1, Edit(Add(conf, typ, n, true)), [Move(conf, m)]);
    DoFirst(st2, Move(conf, m), []);
    FrontIsMisnamed(st2, conf, a, b, n, Moved(st2, conf, m), ds, cs, us, replies, o);
  }

  lemma FrontIsMisnamed(st: State, conf: string, a: string, b: string, n: string, st': State,
                        ds: seq<Call>, cs: seq<Call>, us: seq<Call>, replies: seq<Value>, o: seq<Obj>)
    requires Inv(st) && AllLive(st, conf, [n, a, b]) && st' == Moved(st, conf, [n, a, b])
    requires forall s :: EntryAt(st, conf, s).created.Some? <==> s == n
    requires forall c, s :: EntryAt(st, c, s).created.Some? ==> c == conf
    requires (forall s :: !EntryAt(st, conf, s).Gone()) && EntryAt(st, conf, a).deleted.Some?
    requires Enumerates(ds, st', Deletes) && Enumerates(cs, st', Creates) && AreReplies(replies, ds, cs, us)
    requires NamesKept(replies, ds, cs) && IsSentOrder(st', conf, o)
    ensures NoneRecreated(st', conf)
    ensures NamesUnder(replies[|ds|..], cs, conf, o) == [Str(n), Str(a), Str(b)]
    ensures NamesUnder(replies, cs, conf, o) == [Num(0), Str(a), Str(b)]
  {
    var m := [n, a, b];
    MovedPending(st, conf, m, st');
    LiveObjsAreMoved(st, conf, m, st', o);
    AllAreLive(st', conf, o);
    OnlyCreate(st', conf, n, cs);
    assert CallFor(st', Deletes, Id(conf, a)).Some?;
    assert ds != [] by { assert Contains(ds, Id(conf, a)); }
    assert n in m && a in m && b in m && DistinctStrings(m) && n != a && n != b by {
      assert m[0] == n && m[1] == a && m[2] == b;
    }
    FrontNames(st', conf, a, b, n, cs, ds, us, replies, o);
  }

  lemma MovedPending(st: State, conf: string, m: seq<string>, st': State)
    requires Inv(st) && AllLive(st, conf, m) && st' == Moved(st, conf, m)
    ensures forall c, s {:trigger EntryAt(st', c, s)} ::
              && EntryAt(st', c, s).Inv(s) && EntryAt(st', c, s).deleted == EntryAt(st, c, s).deleted
              && (EntryAt(st', c, s).created.Some? <==> EntryAt(st, c, s).created.Some?)
  {
    forall c, s
      ensures EntryAt(st', c, s).Inv(s) && EntryAt(st', c, s).deleted == EntryAt(st, c, s).deleted
      ensures EntryAt(st', c, s).created.Some? <==> EntryAt(st, c, s).created.Some?
    {
      hide Moved, Find;
      MovedEntry(st, conf, m, c, s);
      MovedShows(st, conf, m, c, s);
    }
  }

  lemma {:induction false} FrontNames(st: State, conf: string, a: string, b: string, n: string, cs: seq<Call>, ds: seq<Call>,
                   us: seq<Call>, replies: seq<Value>, o: seq<Obj>)
    requires o == LiveObjsOf(st, conf, [n, a, b]) && n != a && n != b
    requires forall s :: EntryAt(st, conf, s).created.Some? <==> s == n
    requires |cs| == 1 && cs[0].id == Id(conf, n) && CallIndex(cs, Id(conf, n)) == 0
    requires ds != [] && AreReplies(replies, ds, cs, us) && NamesKept(replies, ds, cs)
    ensures NamesUnder(replies[|ds|..], cs, conf, o) == [Str(n), Str(a), Str(b)]
    ensures NamesUnder(replies, cs, conf, o) == [Num(0), Str(a), Str(b)]
  {
    assert o[0] == Obj(true, n) && o[1] == Obj(false, a) && o[2] == Obj(false, b);
    assert replies[0] == Num(0) && replies[|ds|..][0] == Str(n);
  }

  lemma AllAreLive(st: State, conf: string, o: seq<Obj>)
    requires Inv(st) && IsSentOrder(st, conf, o) && forall s :: !EntryAt(st, conf, s).Gone()
    ensures OnlyLive(st, conf, o) == o
  {
    forall x | x in o ensures IsLive(st, conf, x) {
      assert EntryAt(st, conf, x.sid).Inv(x.sid) && Held(st, conf, x).Some? && !EntryAt(st, conf, x.sid).Gone();
    }
    OnlyLiveAll(st, conf, o);
  }

  lemma {:induction false} OnlyLiveAll(st: State, conf: string, o: seq<Obj>)
    requires forall x :: x in o ==> IsLive(st, conf, x)
    ensures OnlyLive(st, conf, o) == o
  {
    if o != [] {
      assert o[0] in o;
      OnlyLiveAll(st, conf, o[1..]);
    }
  }

  lemma OnlyCreate(st: State, conf: string, n: string, cs: seq<Call>)
    requires Enumerates(cs, st, Creates)
    requires forall c, s :: EntryAt(st, c, s).created.Some? <==> c == conf && s == n
    ensures |cs| == 1 && cs[0].id == Id(conf, n) && CallIndex(cs, Id(conf, n)) == 0
  {
    assert CallFor(st, Creates, Id(conf, n)).Some?;
    forall i | 0 <= i < |cs| ensures cs[i].id == Id(conf, n) { assert CallFor(st, Creates, cs[i].id).Some?; }
    assert Contains(cs, Id(conf, n));
    CallIndexAt(cs, 0);
    CallIndexAt(cs, |cs| - 1);
  }
}
