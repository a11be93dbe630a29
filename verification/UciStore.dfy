/** The UCI client store itself: the methods of the source, each proved against its edit of the state. */
module UciStore {
  import opened Common
  import opened UciState
  import opened UciRuns
  import opened UciOrder
  import opened UciMoves
  import opened UciSave
  import opened UciReorder

  class Uci {
    var state: State

    ghost predicate Valid() reads this { Inv(state) }

    constructor ()
      ensures Valid() && state == State(map[], map[], map[], map[], {}, 0)
    {
      state := State(map[], map[], map[], map[], {}, 0);
    }

    /** `load` of one package; the response must not hide sections that were already added. */
    method LoadPackage(conf: string, response: map<string, Section>)
      requires Valid() && conf !in state.values
      requires forall s :: s in response ==> IsSection(response[s], s) && At(state.creates, conf, s).None?
      modifies this
      ensures Valid() && state == old(state).(values := old(state).values[conf := response])
    {
      state := state.(values := state.values[conf := response]);
      assert forall c, s :: EntryAt(old(state), c, s).Inv(s) && EntryAt(state, c, s).Inv(s);
    }

    /** A missing name is the empty one; `chosen` is then what `createSID` settles on. */
    method AddSection(conf: string, typ: string, name: string, chosen: string) returns (sid: string)
      requires Valid()
      requires if name != "" then !Live(state, conf, name)
               else At(state.creates, conf, chosen).None? && At(state.values, conf, chosen).None?
      modifies this
      ensures sid == (if name != "" then name else chosen) && Valid()
      ensures state == UciRuns.AddSection(old(state), conf, typ, sid, name != "")
    {
      sid := if name != "" then name else chosen;
      StepInv(state, Op.Add(conf, typ, sid, name != ""));
      StoreIsAssignment(state.creates, conf, sid, NewSection(typ, sid, name != "", 1000 + state.newidx));
      StoreSame(state.values, conf, sid);
      StoreSame(state.deletes, conf, sid);
      StoreSame(state.changes, conf, sid);
      hide Store, Put, Entry.Inv, Inv;
      var sec := map[".type" := Str(typ), ".name" := Str(sid), ".anonymous" := Flag(name == ""),
                     ".index" := Num(1000 + state.newidx)];
      if name != "" { sec := sec[".create" := Str(name)]; }
      state := state.(creates := Put(state.creates, conf, sid, sec), newidx := state.newidx + 1);
    }

    method RemoveSection(conf: string, sid: string)
      requires Valid()
      modifies this
      ensures Valid() && state == UciRuns.RemoveSection(old(state), conf, sid)
    {
      StepInv(state, Op.Remove(conf, sid));
      if At(state.creates, conf, sid).Some? {
        StoreIsAssignment(state.creates, conf, sid, map[]);
        state := state.(creates := Drop(state.creates, conf, sid));
      } else if At(state.values, conf, sid).Some? {
        StoreIsAssignment(state.changes, conf, sid, map[]);
        StoreIsAssignment(state.deletes, conf, sid, Whole);
        state := state.(changes := Drop(state.changes, conf, sid), deletes := Put(state.deletes, conf, sid, Whole));
      }
    }

    /** The lookup of one option, in the order of the source. */
    method GetOption(conf: string, ref: string, opt: string) returns (r: Option<Value>, ghost sid: Option<string>)
      requires Valid()
      ensures IsResolved(state, conf, ref, sid)
      ensures r == if sid.None? then None else Read(state, conf, sid.value, opt)
    {
      var name := ResolveSID(conf, ref);
      sid := name;
      if name.None? { return None, sid; }
      var n, c, d, v := At(state.creates, conf, name.value), At(state.changes, conf, name.value),
                        At(state.deletes, conf, name.value), At(state.values, conf, name.value);
      if n.Some? { return Opt(n.value, opt), sid; }
      if d.Some? && (d.value.Whole? || opt in d.value.opts) { return None, sid; }
      if c.Some? && opt in c.value { return Some(c.value[opt]), sid; }
      if v.Some? { return Opt(v.value, opt), sid; }
      return None, sid;
    }

    /** `get` without an option: the pending edits are written into the loaded section it returns. */
    method GetSection(conf: string, ref: string) returns (r: Option<Section>, ghost sid: Option<string>)
      requires Valid()
      modifies this
      ensures Valid()
      ensures state == if sid.Some? then MergeSection(old(state), conf, sid.value) else old(state)
      ensures IsResolved(old(state), conf, ref, sid)
      ensures r == if sid.None? then None else Shown(old(state), conf, sid.value)
    {
      var name := ResolveSID(conf, ref);
      sid := name;
      if name.None? { return None, sid; }
      StepInv(state, Op.ReadSection(conf, name.value));
      r := MergePlain(conf, name.value);
    }

    method MergePlain(conf: string, sid: string) returns (r: Option<Section>)
      modifies this
      ensures state == MergeSection(old(state), conf, sid) && r == Shown(old(state), conf, sid)
    {
      ghost var e := EntryAt(state, conf, sid);
      StoreSame(state.values, conf, sid);
      StoreSame(state.creates, conf, sid);
      StoreSame(state.deletes, conf, sid);
      StoreSame(state.changes, conf, sid);
      hide Store, Put;
      var n, v, c, d := At(state.creates, conf, sid), At(state.values, conf, sid),
                        At(state.changes, conf, sid), At(state.deletes, conf, sid);
      if n.Some? { return n; }
      if v.None? || d == Some(Whole) { return None; }
      var s := v.value;
      if c.Some? { s := s + c.value; }
      if d.Some? { s := s - d.value.opts; }
      assert s == v.value + e.Changes() - e.Deletions();
      StoreIsAssignment(state.values, conf, sid, s);
      state := state.(values := Put(state.values, conf, sid, s));
      return Some(s);
    }

    method SetOption(conf: string, ref: string, opt: string, val: Option<Value>) returns (ghost sid: Option<string>)
      requires Valid()
      modifies this
      ensures Valid() && IsResolved(old(state), conf, ref, sid)
      ensures state == if sid.None? then old(state) else UciRuns.SetOption(old(state), conf, sid.value, opt, val)
    {
      var name := ResolveSID(conf, ref);
      sid := name;
      if name.None? || Dotted(opt) { return; }
      StepInv(state, Op.Set(conf, name.value, opt, val));
      SetPlain(conf, name.value, opt, val);
    }

    method SetPlain(conf: string, sid: string, opt: string, val: Option<Value>)
      requires !Dotted(opt)
      modifies this
      ensures state == UciRuns.SetOption(old(state), conf, sid, opt, val)
    {
      var n := At(state.creates, conf, sid);
      if n.Some? {
        var sec := n.value;
        if val.Some? { sec := sec[opt := val.value]; } else { sec := sec - {opt}; }
        StoreIsAssignment(state.creates, conf, sid, sec);
        state := state.(creates := Put(state.creates, conf, sid, sec));
      } else if val.Some? && val.value != Str("") {
        ChangeLoaded(conf, sid, opt, val.value);
      } else {
        DeleteLoaded(conf, sid, opt);
      }
    }

    method ChangeLoaded(conf: string, sid: string, opt: string, val: Value)
      modifies this
      ensures state == WithEntry(old(state), conf, sid, EntryAt(old(state), conf, sid).WithChange(opt, val))
    {
      var c, d := At(state.changes, conf, sid), At(state.deletes, conf, sid);
      ghost var e := EntryAt(state, conf, sid).WithChange(opt, val);
      StoreSame(state.values, conf, sid);
      StoreSame(state.creates, conf, sid);
      StoreSame(state.deletes, conf, sid);
      StoreSame(state.changes, conf, sid);
      hide Store, Put, Drop;
      if d == Some(Whole) || At(state.values, conf, sid).None? { return; }
      var changes := (if c.Some? then c.value else map[])[opt := val];
      StoreIsAssignment(state.changes, conf, sid, changes);
      if d.Some? {
        StoreIsAssignment(state.deletes, conf, sid, Options(d.value.opts - {opt}));
        if IsEmpty(d.value.opts, opt) { state := state.(deletes := Drop(state.deletes, conf, sid)); }
        else { state := state.(deletes := Put(state.deletes, conf, sid, Options(d.value.opts - {opt}))); }
      }
      state := state.(changes := Put(state.changes, conf, sid, changes));
      assert e.changed == Some(changes);
    }

    method DeleteLoaded(conf: string, sid: string, opt: string)
      modifies this
      ensures state == WithEntry(old(state), conf, sid, EntryAt(old(state), conf, sid).WithDeletion(opt))
    {
      var c, d, v := At(state.changes, conf, sid), At(state.deletes, conf, sid), At(state.values, conf, sid);
      StoreSame(state.values, conf, sid);
      StoreSame(state.creates, conf, sid);
      StoreSame(state.deletes, conf, sid);
      StoreSame(state.changes, conf, sid);
      hide Store, Put, Drop;
      if c.Some? {
        StoreIsAssignment(state.changes, conf, sid, c.value - {opt});
        if IsEmpty(c.value.Keys, opt) { state := state.(changes := Drop(state.changes, conf, sid)); }
        else { state := state.(changes := Put(state.changes, conf, sid, c.value - {opt})); }
      }
      if v.Some? && opt in v.value && d != Some(Whole) {
        var opts := (if d.Some? then d.value.opts else {}) + {opt};
        StoreIsAssignment(state.deletes, conf, sid, Options(opts));
        state := state.(deletes := Put(state.deletes, conf, sid, Options(opts)));
      }
    }

    method ResolveSID(conf: string, ref: string) returns (sid: Option<string>)
      requires Valid()
      ensures IsResolved(state, conf, ref, sid)
    {
      var m := ParseRef(ref);
      if m.None? { return Some(ref); }
      var sa := Sections(conf, m.value.0);
      var i := if m.value.1 >= 0 then m.value.1 else |sa| + m.value.1;
      sid := if 0 <= i < |sa| then Some(NameOf(sa[i])) else None;
    }

    method Sections(conf: string, typ: string) returns (sa: seq<Section>)
      requires Valid()
      ensures IsListing(state, conf, typ, sa)
    {
      sa := [];
      if conf !in state.values { return; }
      sa := CopyLoaded(conf, typ);
      sa := CopyCreated(conf, typ, sa);
      ghost var copied := sa;
      sa := SortBy(sa, IndexOf);
      hide IsListing, Listable, SortedOn, IndexOf;
      SameNames(copied, sa);
      SortedNames(copied, sa);
      sa := NumberFromZero(state, conf, typ, sa);
    }

    method CopyLoaded(conf: string, typ: string) returns (sa: seq<Section>)
      requires Valid() && conf in state.values
      ensures Collected(state, conf, typ, sa)
      ensures forall s :: s in NamesOf(sa) <==> Listable(state, conf, typ, s) && EntryAt(state, conf, s).created.None?
    {
      sa := [];
      var rest := state.values[conf].Keys;
      while rest != {}
        invariant Collected(state, conf, typ, sa)
        invariant forall s :: s in rest ==> At(state.values, conf, s).Some?
        invariant forall s :: s in NamesOf(sa) <==>
                    s !in rest && Listable(state, conf, typ, s) && EntryAt(state, conf, s).created.None?
      {
        var s :| s in rest;
        var e := EntryAt(state, conf, s);
        assert e.Inv(s);
        if !e.Gone() && (typ == "" || Opt(e.loaded.value, ".type") == Some(Str(typ))) {
          Collect(state, conf, typ, sa, s);
          sa := sa + [e.loaded.value + (if e.changed.Some? then e.changed.value else map[])];
        }
        rest := rest - {s};
      }
    }

    method CopyCreated(conf: string, typ: string, loaded: seq<Section>) returns (sa: seq<Section>)
      requires Valid() && conf in state.values && Collected(state, conf, typ, loaded)
      requires forall s :: s in NamesOf(loaded) <==> Listable(state, conf, typ, s) && EntryAt(state, conf, s).created.None?
      ensures Collected(state, conf, typ, sa) && forall s :: s in NamesOf(sa) <==> Listable(state, conf, typ, s)
    {
      sa := loaded;
      var rest := if conf in state.creates then state.creates[conf].Keys else {};
      while rest != {}
        invariant Collected(state, conf, typ, sa)
        invariant forall s :: s in rest ==> At(state.creates, conf, s).Some?
        invariant forall s :: s in NamesOf(sa) <==>
                    Listable(state, conf, typ, s) && (EntryAt(state, conf, s).created.None? || s !in rest)
      {
        var s :| s in rest;
        var e := EntryAt(state, conf, s);
        assert e.Inv(s);
        if typ == "" || Opt(e.created.value, ".type") == Some(Str(typ)) {
          Collect(state, conf, typ, sa, s);
          sa := sa + [e.created.value];
        }
        rest := rest - {s};
      }
    }

    /**
     * `order` is the listing the move starts from.  The names must not look like references, since each
     * section is fetched again by its name.
     */
    method Move(conf: string, ref1: string, ref2: Option<string>, after: bool)
      returns (moved: bool, ghost order: seq<string>, ghost sid1: Option<string>, ghost sid2: Option<string>)
      requires Valid() && forall s :: Live(state, conf, s) ==> ParseRef(s).None?
      modifies this
      ensures Valid() && AllLive(old(state), conf, order) && SortedBy(order, s => old(Position(state, conf, s)))
      ensures IsResolved(old(state), conf, ref1, sid1)
      ensures if ref2.None? then sid2 == None else IsResolved(old(state), conf, ref2.value, sid2)
      ensures var m := if sid1.Some? then MoveOrder(order, sid1.value, sid2, after) else None;
              && moved == m.Some?
              && state == if moved then Moved(old(state), conf, m.value) else old(state)
      ensures state.reorder == old(state.reorder) + if moved then {conf} else {}
    {
      var sa := Sections(conf, "");
      order := NamesOf(sa);
      var s1 := ResolveSID(conf, ref1);
      var s2: Option<string> := None;
      if ref2.Some? { s2 := ResolveSID(conf, ref2.value); }
      sid1, sid2 := s1, s2;
      if s1.None? { return false, order, sid1, sid2; }
      MoveOrderIsMove(order, s1.value, s2, after);
      var names := MovedNames(NamesOf(sa), s1.value, s2, after);
      if names.None? { return false, order, sid1, sid2; }
      RenumberAll(conf, names.value);
      StillInv(state, state.reorder + {conf});
      state := state.(reorder := state.reorder + {conf});
      MovedPackages(old(state), conf, names.value);
      return true, order, sid1, sid2;
    }

    method RenumberAll(conf: string, names: seq<string>)
      requires Valid() && AllLive(state, conf, names) && forall s :: s in names ==> ParseRef(s).None?
      modifies this
      ensures Valid() && state == Renumber(old(state), conf, names, |names|) && state.reorder == old(state.reorder)
    {
      for k := 0 to |names|
        invariant state == Renumber(old(state), conf, names, k)
      {
        RenumberStep(old(state), conf, names, k);
        SetIndex(conf, names[k], k);
      }
      RenumberInv(old(state), conf, names, |names|);
      RenumberFrame(old(state), conf, names, |names|);
    }

    /** `this.get(conf, sid)['.index'] = i` writes into the object that the read returned. */
    method SetIndex(conf: string, sid: string, i: int)
      requires Valid() && ParseRef(sid).None? && Live(state, conf, sid)
      modifies this
      ensures state == WithEntry(old(state), conf, sid, Indexed(EntryAt(old(state), conf, sid), i))
    {
      var s;
      ghost var target;
      IndexedIsAssignment(state, conf, sid, i);
      s, target := GetSection(conf, sid);
      var indexed := s.value[".index" := Num(i)];
      if At(state.creates, conf, sid).Some? {
        state := state.(creates := Put(state.creates, conf, sid, indexed));
      } else {
        state := state.(values := Put(state.values, conf, sid, indexed));
      }
    }

    /** The calls of a save, group after group, and the packages to fetch again. */
    method PendingCalls() returns (ds: seq<Call>, cs: seq<Call>, us: seq<Call>, pkgs: set<string>)
      requires Valid()
      ensures Enumerates(ds, state, Deletes) && Enumerates(cs, state, Creates) && Enumerates(us, state, Updates)
      ensures pkgs == Touched(state)
      ensures forall call :: call in ds || call in cs || call in us ==> call.id.conf in pkgs
      ensures state.reorder <= pkgs
      ensures forall c :: c in pkgs ==> c in state.deletes || c in state.creates || c in state.changes || c in state.reorder
    {
      ds := DeleteCalls();
      cs := CreateCalls();
      us := UpdateCalls();
      pkgs := state.deletes.Keys + state.creates.Keys;
      pkgs := pkgs + state.changes.Keys + state.reorder;
      CallsAreTouched(state, Deletes, ds);
      CallsAreTouched(state, Creates, cs);
      CallsAreTouched(state, Updates, us);
    }

    method DeleteCalls() returns (ds: seq<Call>)
      ensures Enumerates(ds, state, Deletes)
    {
      var ids := Ids(state.deletes);
      ds := [];
      for i := 0 to |ids| invariant SentFor(ds, state, Deletes, ids[..i])
      {
        var o := state.deletes[ids[i].conf][ids[i].sid];
        SendOne(ds, state, Deletes, ids, i);
        ds := ds + [Delete(ids[i], if o.Whole? then None else Some(o.opts))];
      }
      assert ids[..|ids|] == ids;
      AllSent(ds, state, Deletes, ids);
    }

    method CreateCalls() returns (cs: seq<Call>)
      requires Valid()
      ensures Enumerates(cs, state, Creates)
    {
      var ids := Ids(state.creates);
      cs := [];
      for i := 0 to |ids| invariant SentFor(cs, state, Creates, ids[..i])
      {
        var sec := state.creates[ids[i].conf][ids[i].sid];
        assert EntryAt(state, ids[i].conf, ids[i].sid).Inv(ids[i].sid);
        SendOne(cs, state, Creates, ids, i);
        cs := cs + [Create(ids[i], sec[".type"], PlainOpts(sec))];
      }
      assert ids[..|ids|] == ids;
      AllSent(cs, state, Creates, ids);
    }

    method UpdateCalls() returns (us: seq<Call>)
      ensures Enumerates(us, state, Updates)
    {
      var ids := Ids(state.changes);
      us := [];
      for i := 0 to |ids| invariant SentFor(us, state, Updates, ids[..i])
      {
        SendOne(us, state, Updates, ids, i);
        us := us + [Update(ids[i], state.changes[ids[i].conf][ids[i].sid])];
      }
      assert ids[..|ids|] == ids;
      AllSent(us, state, Updates, ids);
    }

    /**
     * The end of a save: the i-th new section is called by the i-th reply, the orders are sent, and the touched
     * packages are dropped and fetched again.  The orders are told by the state before the save.
     */
    method FinishSave(cs: seq<Call>, replies: seq<Value>, pkgs: set<string>, responses: Table<Section>)
      returns (orders: map<string, seq<Value>>)
      requires Valid() && Enumerates(cs, state, Creates) && |cs| <= |replies| && pkgs == Touched(state)
      requires responses.Keys == pkgs
      requires forall c, s :: c in responses && s in responses[c] ==> IsSection(responses[c][s], s)
      modifies this
      ensures Valid() && state == Refetched(old(state), responses)
      ensures OrdersSent(old(state), cs, replies, orders)
      ensures state.creates == map[] && state.changes == map[] && state.deletes == map[] && state.reorder == {}
      ensures forall g, id :: CallFor(old(state), g, id).Some? ==> IsAnswered(state, responses, id.conf)
      ensures forall c :: c in old(state.reorder) ==> IsAnswered(state, responses, c)
      ensures forall c :: c !in responses ==>
                (c in state.values <==> c in old(state.values)) && (c in state.values ==> state.values[c] == old(state.values[c]))
    {
      ghost var st := state;
      TakeNames(cs, replies);
      orders := ReorderSections(st, cs, replies);
      forall c, s ensures EntryAt(Refetched(st, responses), c, s).Inv(s) {
        assert EntryAt(st, c, s).Inv(s);
        ReloadedEntry(st, responses, c, s);
      }
      assert st.creates - pkgs == state.creates - pkgs by { TakenCreates(st, state, cs, replies, pkgs); }
      state := state.(values := state.values - pkgs, creates := state.creates - pkgs,
                      changes := state.changes - pkgs, deletes := state.deletes - pkgs);
      state := state.(values := state.values + responses);
      assert state == Refetched(st, responses);
      NothingPendingAfter(st, responses, pkgs);
    }

    /** A second save right after the first has no calls and no packages to fetch. */
    method SaveAgain(cs: seq<Call>, replies: seq<Value>, pkgs: set<string>, responses: Table<Section>)
      returns (again: seq<Call>, fetched: set<string>)
      requires Valid() && Enumerates(cs, state, Creates) && |cs| <= |replies| && pkgs == Touched(state)
      requires responses.Keys == pkgs
      requires forall c, s :: c in responses && s in responses[c] ==> IsSection(responses[c][s], s)
      modifies this
      ensures Valid() && again == [] && fetched == {}
    {
      var orders := FinishSave(cs, replies, pkgs, responses);
      var ds, cs', us;
      ds, cs', us, fetched := PendingCalls();
      NothingLeftToSave(state, ds, cs', us);
      again := ds + cs' + us;
    }

    /** `snew[i]['.name'] = responses[i]`. */
    method TakeNames(cs: seq<Call>, replies: seq<Value>)
      requires Enumerates(cs, state, Creates) && |cs| <= |replies|
      modifies this
      ensures state == old(state).(creates := state.creates) && NamesTaken(old(state), state, cs, replies)
    {
      for i := 0 to |cs|
        invariant state == old(state).(creates := state.creates) && state.creates.Keys == old(state.creates.Keys)
        invariant forall c, s {:trigger At(state.creates, c, s)} ::
                    At(state.creates, c, s) == TakenUpTo(At(old(state).creates, c, s), cs, replies, Id(c, s), i)
      {
        var id := cs[i].id;
        CreateExists(old(state), cs, i);
        ghost var before := state.creates;
        assert At(before, id.conf, id.sid).Some?;
        state := state.(creates := Put(state.creates, id.conf, id.sid, state.creates[id.conf][id.sid][".name" := replies[i]]));
        TookOne(old(state).creates, before, state.creates, cs, replies, i);
      }
    }

    /**
     * The orders for the packages that were moved in, from the new names; `st` is the state before the new names
     * were taken.
     */
    method ReorderSections(ghost st: State, ghost cs: seq<Call>, ghost replies: seq<Value>)
      returns (orders: map<string, seq<Value>>)
      requires Inv(st) && state == st.(creates := state.creates) && NamesTaken(st, state, cs, replies)
      modifies this
      ensures state == old(state).(reorder := {}) && OrdersSent(st, cs, replies, orders)
    {
      orders := map[];
      var rest := state.reorder;
      while rest != {}
        invariant state == old(state) && rest <= state.reorder && orders.Keys <= state.reorder - rest
        invariant forall c :: c in state.reorder - rest ==> OrderSent(st, c, cs, replies, orders)
      {
        var c :| c in rest;
        ghost var o;
        var names;
        names, o := SentNames(st, cs, replies, c);
        ghost var before := orders;
        if names != [] { orders := orders[c := names]; }
        KeepsOrders(st, cs, replies, before, orders, c, o, state.reorder - rest);
        rest := rest - {c};
      }
      state := state.(reorder := {});
    }

    method SentNames(ghost st: State, ghost cs: seq<Call>, ghost replies: seq<Value>, conf: string)
      returns (names: seq<Value>, ghost objs: seq<Obj>)
      requires Inv(st) && state == st.(creates := state.creates) && NamesTaken(st, state, cs, replies)
      ensures IsSentOrder(st, conf, objs) && names == NamesUnder(replies, cs, conf, objs)
    {
      var o := Objects(conf);
      var creates, values := if conf in state.creates then state.creates[conf] else map[],
                             if conf in state.values then state.values[conf] else map[];
      o := SortBy(o, (x: Obj) => IndexOf(Fetch(creates, values, x)));
      SortedAsSent(st, state, conf, cs, replies, o, creates, values);
      objs := o;
      names := NamesIn(creates, values, o);
      hide IsSentOrder, NameUnder, Fetch;
    }

    /** References to all created and all loaded sections of a package. */
    method Objects(conf: string) returns (o: seq<Obj>)
      ensures DistinctObjs(o) && forall x {:trigger x in o} :: x in o <==> Held(state, conf, x).Some?
    {
      o := [];
      var rest := if conf in state.creates then state.creates[conf].Keys else {};
      while rest != {}
        invariant DistinctObjs(o) && forall s :: s in rest ==> At(state.creates, conf, s).Some?
        invariant forall x {:trigger x in o} :: x in o <==> x.created && Held(state, conf, x).Some? && x.sid !in rest
      {
        var s :| s in rest;
        assert Obj(true, s) !in o;
        o := o + [Obj(true, s)];
        rest := rest - {s};
      }
      rest := if conf in state.values then state.values[conf].Keys else {};
      while rest != {}
        invariant DistinctObjs(o) && forall s :: s in rest ==> At(state.values, conf, s).Some?
        invariant forall x {:trigger x in o} :: x in o <==> Held(state, conf, x).Some? && (x.created || x.sid !in rest)
      {
        var s :| s in rest;
        assert Obj(false, s) !in o;
        o := o + [Obj(false, s)];
        rest := rest - {s};
      }
    }
  }

  /** The package holds what the server answered. */
  predicate IsAnswered(st: State, responses: Table<Section>, conf: string) {
    conf in responses && conf in st.values && st.values[conf] == responses[conf]
  }

  lemma CallsAreTouched(st: State, g: Group, calls: seq<Call>)
    requires Enumerates(calls, st, g)
    ensures forall call :: call in calls ==> call.id.conf in Touched(st)
  {
    forall i | 0 <= i < |calls| ensures calls[i].id.conf in Touched(st) { CallIsTouched(st, g, calls[i].id); }
  }

  lemma CallIsTouched(st: State, g: Group, id: Id)
    requires CallFor(st, g, id).Some?
    ensures id.conf in Touched(st)
  {
  }

  /** When a save is over nothing is pending, and every package that had a call or a mark is the server's answer. */
  lemma NothingPendingAfter(st: State, responses: Table<Section>, pkgs: set<string>)
    requires responses.Keys == pkgs == Touched(st)
    ensures var st' := Refetched(st, responses);
            && st'.creates == map[] && st'.changes == map[] && st'.deletes == map[] && st'.reorder == {}
            && (forall g, id :: CallFor(st, g, id).Some? ==> IsAnswered(st', responses, id.conf))
            && (forall c :: c in st.reorder ==> IsAnswered(st', responses, c))
            && forall c :: c !in responses ==>
                 (c in st'.values <==> c in st.values) && (c in st'.values ==> st'.values[c] == st.values[c])
  {
    var st' := Refetched(st, responses);
    AllDropped(st.creates, pkgs);
    AllDropped(st.changes, pkgs);
    AllDropped(st.deletes, pkgs);
    assert st' == State(st.values - pkgs + responses, map[], map[], map[], {}, st.newidx);
    assert st.reorder <= pkgs;
    hide Refetched, Touched, CallFor;
    forall c | c in responses ensures IsAnswered(st', responses, c) {}
    forall g, id | CallFor(st, g, id).Some? ensures IsAnswered(st', responses, id.conf) { CallIsTouched(st, g, id); }
  }

  lemma AllDropped<T>(t: Table<T>, pkgs: set<string>)
    requires t.Keys <= pkgs
    ensures t - pkgs == map[]
  {
  }

  /** So the next save sends nothing, and fetches nothing. */
  lemma NothingLeftToSave(st: State, ds: seq<Call>, cs: seq<Call>, us: seq<Call>)
    requires st.creates == map[] && st.changes == map[] && st.deletes == map[] && st.reorder == {}
    requires Enumerates(ds, st, Deletes) && Enumerates(cs, st, Creates) && Enumerates(us, st, Updates)
    ensures ds == [] && cs == [] && us == [] && Touched(st) == {}
  {
    NoCalls(st, Deletes, ds);
    NoCalls(st, Creates, cs);
    NoCalls(st, Updates, us);
  }

  lemma NoCalls(st: State, g: Group, calls: seq<Call>)
    requires Enumerates(calls, st, g) && forall id :: CallFor(st, g, id).None?
    ensures calls == []
  {
    if calls != [] {
      SomeCall(st, g, calls);
      assert false;
    }
  }

  lemma SomeCall(st: State, g: Group, calls: seq<Call>)
    requires Enumerates(calls, st, g) && calls != []
    ensures exists id :: CallFor(st, g, id).Some?
  {
    assert CallFor(st, g, calls[0].id).Some?;
  }

  // ---- A move and the save after it -------------------------------------------------------------

  /** A move makes the next save send an order, with the live names as moved under the known conditions. */
  lemma MoveIsSent(st: State, conf: string, m: seq<string>, cs: seq<Call>, replies: seq<Value>, own: seq<Value>,
                   orders: map<string, seq<Value>>)
    requires Inv(st) && AllLive(st, conf, m) && m != []
    requires Enumerates(cs, Moved(st, conf, m), Creates) && |replies| >= |cs| && |own| >= |cs|
    requires OrdersSent(Moved(st, conf, m), cs, replies, orders)
    ensures conf in orders
    ensures exists o :: IsSentOrder(Moved(st, conf, m), conf, o) && orders[conf] == NamesUnder(replies, cs, conf, o)
              && (SentAsMoved(Moved(st, conf, m), conf, m, o, cs, replies, own) <==>
                  OwnReplies(conf, cs, replies, own) && NoneReused(Moved(st, conf, m), conf, m, cs, own))
  {
    var st' := Moved(st, conf, m);
    MovedPackages(st, conf, m);
    assert OrderSent(st', conf, cs, replies, orders);
    var o :| IsSentOrder(st', conf, o) && (conf in orders <==> o != [])
             && (conf in orders ==> orders[conf] == NamesUnder(replies, cs, conf, o));
    SentOrderIsMoved(st, conf, m, st', o, cs, replies, own);
    LiveObjsAreMoved(st, conf, m, st', o);
    hide *;
    assert |LiveObjsOf(st', conf, m)| == |m|;
    assert o != [] by { NoneLive(st', conf, o); }
  }

  lemma NoneLive(st: State, conf: string, o: seq<Obj>)
    ensures o == [] ==> OnlyLive(st, conf, o) == []
  {
  }

  /** With no other edit pending, exactly the names in the moved order. */
  lemma MoveAloneIsSent(st: State, conf: string, m: seq<string>, cs: seq<Call>, replies: seq<Value>,
                        orders: map<string, seq<Value>>)
    requires Inv(st) && NothingPending(st) && AllLive(st, conf, m) && m != []
    requires Enumerates(cs, Moved(st, conf, m), Creates) && |replies| >= |cs|
    requires OrdersSent(Moved(st, conf, m), cs, replies, orders)
    ensures conf in orders && |orders[conf]| == |m| && forall i :: 0 <= i < |m| ==> orders[conf][i] == Str(m[i])
  {
    hide *;
    var st' := Moved(st, conf, m);
    MoveIsSent(st, conf, m, cs, replies, replies, orders);
    var o :| IsSentOrder(st', conf, o) && orders[conf] == NamesUnder(replies, cs, conf, o);
    LiveObjsAreMoved(st, conf, m, st', o);
    NothingGone(st, conf, m, st');
    AllAreLive(st', conf, o);
    LoadedNames(st', conf, m, o, cs, replies);
  }

  lemma NothingGone(st: State, conf: string, m: seq<string>, st': State)
    requires Inv(st) && NothingPending(st) && AllLive(st, conf, m) && st' == Moved(st, conf, m)
    ensures Inv(st') && forall s :: !EntryAt(st', conf, s).Gone() && EntryAt(st', conf, s).created.None?
  {
    MovedPending(st, conf, m, st');
    assert forall c, s :: EntryAt(st', c, s).Inv(s);
    forall s ensures !EntryAt(st', conf, s).Gone() && EntryAt(st', conf, s).created.None? {
      hide Moved, EntryAt;
      assert EntryAt(st, conf, s).created.None? && EntryAt(st, conf, s).deleted.None?;
    }
  }

  lemma LoadedNames(st: State, conf: string, m: seq<string>, o: seq<Obj>, cs: seq<Call>, replies: seq<Value>)
    requires o == LiveObjsOf(st, conf, m) && forall s :: EntryAt(st, conf, s).created.None?
    ensures var names := NamesUnder(replies, cs, conf, o);
            |names| == |m| && forall i :: 0 <= i < |m| ==> names[i] == Str(m[i])
  {
    forall i | 0 <= i < |m| ensures NameUnder(replies, cs, conf, o[i]) == Str(m[i]) { assert o[i] == Obj(false, m[i]); }
  }

  /** After every run, the save sends an order for exactly the moved packages that still hold a section. */
  lemma RunIsSent(st: State, acts: seq<Act>, cs: seq<Call>, replies: seq<Value>, orders: map<string, seq<Value>>, c: string)
    requires Inv(st) && PossibleRun(st, acts) && OrdersSent(DoAll(st, acts), cs, replies, orders)
    ensures c in orders <==>
            && (c in st.reorder || exists i :: 0 <= i < |acts| && acts[i].Move? && acts[i].conf == c)
            && exists x :: Held(DoAll(st, acts), c, x).Some?
  {
    RunMarks(st, acts, c);
    hide Inv, PossibleRun, Held, DoAll;
    var st' := DoAll(st, acts);
    if c in st'.reorder {
      assert OrderSent(st', c, cs, replies, orders);
      var o :| IsSentOrder(st', c, o) && (c in orders <==> o != []);
      assert o != [] ==> o[0] in o && Held(st', c, o[0]).Some?;
      assert o == [] ==> forall x {:trigger x in o} :: x !in o;
      forall x | o == [] ensures Held(st', c, x).None? { assert x !in o; }
    }
  }

  lemma StillInv(st: State, reorder: set<string>)
    requires Inv(st)
    ensures Inv(st.(reorder := reorder))
  {
    forall c, s ensures EntryAt(st.(reorder := reorder), c, s).Inv(s) { assert EntryAt(st, c, s).Inv(s); }
  }

  lemma IndexedIsAssignment(st: State, conf: string, sid: string, i: int)
    requires Live(st, conf, sid)
    ensures var merged, indexed := MergeSection(st, conf, sid), Shown(st, conf, sid).value[".index" := Num(i)];
            && (At(merged.creates, conf, sid).Some? <==> At(st.creates, conf, sid).Some?)
            && WithEntry(st, conf, sid, Indexed(EntryAt(st, conf, sid), i)) ==
                 if At(st.creates, conf, sid).Some? then merged.(creates := Put(merged.creates, conf, sid, indexed))
                 else merged.(values := Put(merged.values, conf, sid, indexed))
  {
    var merged, sec := MergeSection(st, conf, sid), Shown(st, conf, sid).value;
    var indexed := sec[".index" := Num(i)];
    if At(st.creates, conf, sid).Some? {
      StoreIsAssignment(merged.creates, conf, sid, indexed);
    } else {
      StoreIsAssignment(merged.values, conf, sid, indexed);
      StoreTwice(st.values, conf, sid, sec, indexed);
    }
  }

  lemma StoreSame<T>(t: Table<T>, conf: string, sid: string)
    ensures Store(t, conf, sid, At(t, conf, sid)) == t
  {
  }

  lemma StoreTwice<T>(t: Table<T>, conf: string, sid: string, x: T, y: T)
    ensures Store(Store(t, conf, sid, Some(x)), conf, sid, Some(y)) == Store(t, conf, sid, Some(y))
  {
    StoreIsAssignment(t, conf, sid, x);
    StoreIsAssignment(t, conf, sid, y);
    StoreIsAssignment(Put(t, conf, sid, x), conf, sid, y);
    var row := if conf in t then t[conf] else map[];
    assert row[sid := x][sid := y] == row[sid := y];
    assert Put(Put(t, conf, sid, x), conf, sid, y) == Put(t, conf, sid, y);
  }

  lemma RenumberStep(st: State, conf: string, names: seq<string>, k: nat)
    requires Inv(st) && AllLive(st, conf, names) && k < |names|
    ensures Inv(Renumber(st, conf, names, k)) && Live(Renumber(st, conf, names, k), conf, names[k])
    ensures names[k] in names
  {
    RenumberInv(st, conf, names, k);
    RenumberEntries(st, conf, names, k, conf, names[k]);
    assert names[k] in names && Listable(st, conf, "", names[k]);
  }

  /** The search and the two splices of `move`. */
  method MovedNames(order: seq<string>, s1: string, s2: Option<string>, after: bool) returns (m: Option<seq<string>>)
    ensures m == MoveOrder(order, s1, s2, after)
  {
    hide Find;
    var i := IndexOfName(order, s1);
    if i == |order| { return None; }
    var names := order[..i] + order[i + 1..];
    if s2.None? { return Some(names + [s1]); }
    i := IndexOfName(names, s2.value);
    if i == |names| { return None; }
    if after { i := i + 1; }
    return Some(names[..i] + [s1] + names[i..]);
  }

  method IndexOfName(names: seq<string>, x: string) returns (i: nat)
    ensures i == Find(names, x)
  {
    i := 0;
    while i < |names|
      invariant i <= |names| && forall j :: 0 <= j < i ==> names[j] != x
    {
      if names[i] == x {
        FindAt(names, x, i);
        return;
      }
      i := i + 1;
    }
  }

  /** The section behind a reference, in the two tables of its package. */
  function Fetch(creates: map<string, Section>, values: map<string, Section>, x: Obj): Section {
    if x.created then (if x.sid in creates then creates[x.sid] else map[])
    else (if x.sid in values then values[x.sid] else map[])
  }

  method NamesIn(creates: map<string, Section>, values: map<string, Section>, o: seq<Obj>) returns (names: seq<Value>)
    requires forall x :: x in o ==> ".name" in Fetch(creates, values, x)
    ensures |names| == |o| && forall k :: 0 <= k < |o| ==> o[k] in o && names[k] == Fetch(creates, values, o[k])[".name"]
  {
    names := [];
    for i := 0 to |o|
      invariant |names| == i && forall k :: 0 <= k < i ==> names[k] == Fetch(creates, values, o[k])[".name"]
    {
      assert o[i] in o;
      names := names + [Fetch(creates, values, o[i])[".name"]];
    }
  }

  function TakenUpTo(sec: Option<Section>, cs: seq<Call>, replies: seq<Value>, id: Id, n: nat): Option<Section>
    requires n <= |cs| <= |replies|
  {
    var k := CallIndex(cs, id);
    if sec.Some? && k < n then Some(sec.value[".name" := replies[k]]) else sec
  }

  /** The new sections are called by the first replies, everything else is as before. */
  ghost predicate NamesTaken(st: State, st': State, cs: seq<Call>, replies: seq<Value>) {
    && Enumerates(cs, st, Creates) && |cs| <= |replies| && st'.creates.Keys == st.creates.Keys
    && forall c, s {:trigger At(st'.creates, c, s)} ::
         At(st'.creates, c, s) == TakenUpTo(At(st.creates, c, s), cs, replies, Id(c, s), |cs|)
  }

  /** What is sent for a package in which sections were moved; nothing is sent for an empty one. */
  ghost predicate OrderSent(st: State, conf: string, cs: seq<Call>, replies: seq<Value>, orders: map<string, seq<Value>>) {
    exists o :: IsSentOrder(st, conf, o) && (conf in orders <==> o != [])
                && (conf in orders ==> orders[conf] == NamesUnder(replies, cs, conf, o))
  }

  ghost predicate OrdersSent(st: State, cs: seq<Call>, replies: seq<Value>, orders: map<string, seq<Value>>) {
    orders.Keys <= st.reorder && forall c :: c in st.reorder ==> OrderSent(st, c, cs, replies, orders)
  }

  lemma CreateExists(st: State, cs: seq<Call>, i: nat)
    requires Enumerates(cs, st, Creates) && i < |cs|
    ensures At(st.creates, cs[i].id.conf, cs[i].id.sid).Some?
  {
    assert CallFor(st, Creates, cs[i].id).Some?;
  }

  lemma TookOne(first: Table<Section>, before: Table<Section>, after: Table<Section>, cs: seq<Call>,
                replies: seq<Value>, i: nat)
    requires i < |cs| <= |replies| && Distinct(cs) && At(first, cs[i].id.conf, cs[i].id.sid).Some?
    requires forall c, s {:trigger At(before, c, s)} ::
               At(before, c, s) == TakenUpTo(At(first, c, s), cs, replies, Id(c, s), i)
    requires cs[i].id.conf in before && cs[i].id.sid in before[cs[i].id.conf]
    requires var id := cs[i].id; after == Put(before, id.conf, id.sid, before[id.conf][id.sid][".name" := replies[i]])
    ensures forall c, s {:trigger At(after, c, s)} ::
              At(after, c, s) == TakenUpTo(At(first, c, s), cs, replies, Id(c, s), i + 1)
  {
    CallIndexAt(cs, i);
    forall c, s ensures At(after, c, s) == TakenUpTo(At(first, c, s), cs, replies, Id(c, s), i + 1) {
      assert At(before, c, s) == TakenUpTo(At(first, c, s), cs, replies, Id(c, s), i);
    }
  }

  /** Unloading drops all created sections, whatever they are called. */
  lemma TakenCreates(st: State, st': State, cs: seq<Call>, replies: seq<Value>, pkgs: set<string>)
    requires st'.creates.Keys == st.creates.Keys <= pkgs
    ensures st.creates - pkgs == st'.creates - pkgs
  {
  }

  lemma KeepsOrders(st: State, cs: seq<Call>, replies: seq<Value>, before: map<string, seq<Value>>,
                    after: map<string, seq<Value>>, c: string, o: seq<Obj>, done: set<string>)
    requires IsSentOrder(st, c, o) && c !in done && before.Keys <= done
    requires forall x :: x in done ==> OrderSent(st, x, cs, replies, before)
    requires var names := NamesUnder(replies, cs, c, o); after == if names != [] then before[c := names] else before
    ensures forall x :: x in done + {c} ==> OrderSent(st, x, cs, replies, after)
  {
    forall x | x in done ensures OrderSent(st, x, cs, replies, after) {
      var p :| IsSentOrder(st, x, p) && (x in before <==> p != [])
               && (x in before ==> before[x] == NamesUnder(replies, cs, x, p));
    }
  }

  lemma HeldName(st: State, st': State, conf: string, cs: seq<Call>, replies: seq<Value>, x: Obj)
    requires Inv(st) && st' == st.(creates := st'.creates) && NamesTaken(st, st', cs, replies) && Held(st, conf, x).Some?
    ensures var held := Held(st', conf, x);
            && held.Some? && ".name" in held.value && held.value[".name"] == NameUnder(replies, cs, conf, x)
            && IndexOf(held.value) == ObjIndex(st, conf, x)
  {
    assert EntryAt(st, conf, x.sid).Inv(x.sid);
    assert At(st'.creates, conf, x.sid) == TakenUpTo(At(st.creates, conf, x.sid), cs, replies, Id(conf, x.sid), |cs|);
  }

  lemma SortedAsSent(st: State, st': State, conf: string, cs: seq<Call>, replies: seq<Value>, o: seq<Obj>,
                     creates: map<string, Section>, values: map<string, Section>)
    requires Inv(st) && st' == st.(creates := st'.creates) && NamesTaken(st, st', cs, replies)
    requires creates == (if conf in st'.creates then st'.creates[conf] else map[])
    requires values == (if conf in st'.values then st'.values[conf] else map[])
    requires DistinctObjs(o) && forall x {:trigger x in o} :: x in o <==> Held(st', conf, x).Some?
    requires SortedOn(o, (x: Obj) => IndexOf(Fetch(creates, values, x)))
    ensures IsSentOrder(st, conf, o)
    ensures forall x :: x in o ==> ".name" in Fetch(creates, values, x)
                                   && Fetch(creates, values, x)[".name"] == NameUnder(replies, cs, conf, x)
  {
    forall x ensures x in o <==> Held(st, conf, x).Some? {
      assert At(st'.creates, conf, x.sid) == TakenUpTo(At(st.creates, conf, x.sid), cs, replies, Id(conf, x.sid), |cs|);
    }
    forall x | x in o
      ensures ObjIndex(st, conf, x) == IndexOf(Fetch(creates, values, x)) && Held(st', conf, x) == Some(Fetch(creates, values, x))
      ensures ".name" in Fetch(creates, values, x) && Fetch(creates, values, x)[".name"] == NameUnder(replies, cs, conf, x)
    {
      HeldName(st, st', conf, cs, replies, x);
    }
    forall i, j | 0 <= i < j < |o| ensures ObjIndex(st, conf, o[i]) <= ObjIndex(st, conf, o[j]) {
      assert o[i] in o && o[j] in o;
    }
  }

  /** The pairs of a two-level table, as two nested for-in loops visit them. */
  method Ids<T>(t: Table<T>) returns (ids: seq<Id>)
    ensures DistinctIds(ids) && forall id: Id :: id in ids <==> At(t, id.conf, id.sid).Some?
  {
    ids := [];
    var confs := t.Keys;
    while confs != {}
      invariant confs <= t.Keys && DistinctIds(ids)
      invariant forall id: Id :: id in ids <==> At(t, id.conf, id.sid).Some? && id.conf !in confs
    {
      var c :| c in confs;
      var sids := t[c].Keys;
      while sids != {}
        invariant sids <= t[c].Keys && DistinctIds(ids)
        invariant forall id: Id :: id in ids <==>
                    At(t, id.conf, id.sid).Some? && (id.conf !in confs || (id.conf == c && id.sid !in sids))
      {
        var s :| s in sids;
        ids := ids + [Id(c, s)];
        sids := sids - {s};
      }
      confs := confs - {c};
    }
  }

  ghost predicate DistinctIds(ids: seq<Id>) { forall i, j :: 0 <= i < j < |ids| ==> ids[i] != ids[j] }

  /** One call per visited section, in the order of the visit. */
  ghost predicate SentFor(calls: seq<Call>, st: State, g: Group, ids: seq<Id>) {
    |calls| == |ids| && forall i :: 0 <= i < |ids| ==> calls[i].id == ids[i] && CallFor(st, g, ids[i]) == Some(calls[i])
  }

  lemma SendOne(calls: seq<Call>, st: State, g: Group, ids: seq<Id>, i: nat)
    requires i < |ids| && SentFor(calls, st, g, ids[..i]) && CallFor(st, g, ids[i]).Some?
    ensures var call := CallFor(st, g, ids[i]).value; SentFor(calls + [call], st, g, ids[..i + 1])
  {
    assert ids[..i + 1] == ids[..i] + [ids[i]];
  }

  lemma AllSent(calls: seq<Call>, st: State, g: Group, ids: seq<Id>)
    requires SentFor(calls, st, g, ids) && DistinctIds(ids) && forall id :: CallFor(st, g, id).Some? ==> id in ids
    ensures Enumerates(calls, st, g)
  {
    forall id | CallFor(st, g, id).Some? ensures Contains(calls, id) {
      var i :| 0 <= i < |ids| && ids[i] == id;
      assert calls[i].id == id;
    }
  }

  /** The section a reference stands for: itself, or one picked from the listing of its type. */
  ghost predicate IsResolved(st: State, conf: string, ref: string, sid: Option<string>) {
    match ParseRef(ref)
    case None => sid == Some(ref)
    case Some((typ, pos)) => exists sa :: IsListing(st, conf, typ, sa) && sid == Pick(sa, pos)
  }

  /** A listed section, counted from the first one, or back from the last one. */
  function Counted(names: seq<string>, n: nat, back: bool): Option<string> {
    if back then (if 1 <= n <= |names| then Some(names[|names| - n]) else None)
    else if n < |names| then Some(names[n]) else None
  }

  /** "@type[n]" counts from the first section of the type, "@type[-n]" back from the last one. */
  lemma ResolvedRefs(st: State, conf: string, typ: string, n: nat, back: bool, ref: string, sid: Option<string>)
    requires typ != "" && (forall c :: c in typ ==> IsDigit(c) || IsLetter(c) || c == '_' || c == '-') && (back ==> n > 0)
    requires ref == "@" + typ + (if back then "[-" else "[") + NatStr(n) + "]"
    ensures IsResolved(st, conf, ref, sid) <==> exists sa :: IsListing(st, conf, typ, sa) && sid == Counted(NamesOf(sa), n, back)
  {
    RefIsRead(typ, n);
    ReferenceIsAt(st, conf, ref, typ, n, back, sid);
  }

  lemma ReferenceIsAt(st: State, conf: string, ref: string, typ: string, n: nat, back: bool, sid: Option<string>)
    requires ParseRef(ref) == Some((typ, if back then -(n as int) else n as int)) && (back ==> n > 0)
    ensures IsResolved(st, conf, ref, sid) <==> exists sa :: IsListing(st, conf, typ, sa) && sid == Counted(NamesOf(sa), n, back)
  {
    hide IsListing, ParseRef;
    forall sa: seq<Section> ensures Pick(sa, if back then -(n as int) else n as int) == Counted(NamesOf(sa), n, back) {}
    hide Pick, Counted;
  }

  /** Sections copied so far: each listable, copied as listed, none twice. */
  ghost predicate Collected(st: State, conf: string, typ: string, sa: seq<Section>) {
    && DistinctStrings(NamesOf(sa))
    && forall x :: x in sa ==> Listable(st, conf, typ, NameOf(x)) && x == Listed(EntryAt(st, conf, NameOf(x)))
  }

  lemma Collect(st: State, conf: string, typ: string, sa: seq<Section>, s: string)
    requires Inv(st) && Collected(st, conf, typ, sa) && Listable(st, conf, typ, s) && s !in NamesOf(sa)
    ensures var sa' := sa + [Listed(EntryAt(st, conf, s))];
            Collected(st, conf, typ, sa') && NamesOf(sa') == NamesOf(sa) + [s]
  {
    assert EntryAt(st, conf, s).Inv(s);
    ListedIsSection(EntryAt(st, conf, s), s);
  }

  ghost predicate SortedOn<T>(xs: seq<T>, key: T -> int) {
    forall i, j :: 0 <= i < j < |xs| ==> key(xs[i]) <= key(xs[j])
  }

  ghost predicate DistinctIn<T>(xs: seq<T>) { forall i, j :: 0 <= i < j < |xs| ==> xs[i] != xs[j] }

  /** The engine's sort, by ascending keys. */
  method SortBy<T(==)>(xs: seq<T>, key: T -> int) returns (r: seq<T>)
    ensures SortedOn(r, key) && multiset(r) == multiset(xs) && |r| == |xs|
    ensures forall x :: x in r <==> x in xs
    ensures DistinctIn(xs) ==> DistinctIn(r)
  {
    r := [];
    assert SortedOn(r, key) && DistinctIn(r);
    hide SortedOn, DistinctIn;
    for n := 0 to |xs|
      invariant SortedOn(r, key) && multiset(r) == multiset(xs[..n])
      invariant DistinctIn(xs) ==> DistinctIn(r)
    {
      var k := PlaceFor(r, xs[n], key);
      InsertOne(r, xs, n, k);
      InsertSorted(r, xs[n], k, key);
      r := r[..k] + [xs[n]] + r[k..];
    }
    assert xs[..|xs|] == xs;
    SameMultiset(r, xs);
  }

  method PlaceFor<T>(r: seq<T>, x: T, key: T -> int) returns (k: nat)
    ensures k <= |r| && (k > 0 ==> key(r[k - 1]) <= key(x)) && forall i :: k <= i < |r| ==> key(r[i]) > key(x)
  {
    k := |r|;
    while k > 0 && key(r[k - 1]) > key(x)
      invariant 0 <= k <= |r| && forall i :: k <= i < |r| ==> key(r[i]) > key(x)
    {
      k := k - 1;
    }
  }

  lemma SameMultiset<T>(r: seq<T>, xs: seq<T>)
    requires multiset(r) == multiset(xs)
    ensures |r| == |xs| && forall x :: x in r <==> x in xs
  {
    forall x ensures x in r <==> x in xs { assert x in multiset(r) <==> x in multiset(xs); }
    assert |multiset(r)| == |multiset(xs)|;
  }

  lemma InsertSorted<T>(r: seq<T>, x: T, k: nat, key: T -> int)
    requires SortedOn(r, key) && k <= |r| && (k > 0 ==> key(r[k - 1]) <= key(x))
    requires forall i :: k <= i < |r| ==> key(r[i]) > key(x)
    ensures SortedOn(r[..k] + [x] + r[k..], key)
  {
  }

  lemma InsertOne<T>(r: seq<T>, xs: seq<T>, n: nat, k: nat)
    requires n < |xs| && k <= |r| && multiset(r) == multiset(xs[..n])
    ensures multiset(r[..k] + [xs[n]] + r[k..]) == multiset(xs[..n + 1])
    ensures DistinctIn(xs) && DistinctIn(r) ==> DistinctIn(r[..k] + [xs[n]] + r[k..])
  {
    assert r == r[..k] + r[k..] && xs[..n + 1] == xs[..n] + [xs[n]];
    if DistinctIn(xs) && DistinctIn(r) {
      assert xs[n] !in xs[..n];
      assert forall x :: x in r ==> x in multiset(r);
      InsertDistinct(r, xs[n], k);
    }
  }

  lemma InsertDistinct<T>(r: seq<T>, x: T, k: nat)
    requires k <= |r| && DistinctIn(r) && x !in r
    ensures DistinctIn(r[..k] + [x] + r[k..])
  {
  }

  /** The sections stay distinct by name when they are sorted. */
  lemma SortedNames(sa: seq<Section>, r: seq<Section>)
    requires DistinctStrings(NamesOf(sa)) && (DistinctIn(sa) ==> DistinctIn(r)) && forall x :: x in r <==> x in sa
    ensures DistinctStrings(NamesOf(r))
  {
    assert DistinctIn(sa) by {
      forall i, j | 0 <= i < j < |sa| ensures sa[i] != sa[j] { assert NamesOf(sa)[i] != NamesOf(sa)[j]; }
    }
    forall i, j | 0 <= i < j < |r| ensures NamesOf(r)[i] != NamesOf(r)[j] {
      assert r[i] in sa && r[j] in sa && r[i] != r[j];
      var k :| 0 <= k < |sa| && sa[k] == r[i];
      var l :| 0 <= l < |sa| && sa[l] == r[j];
      assert NamesOf(sa)[k] != NamesOf(sa)[l];
    }
  }

  lemma SameNames(a: seq<Section>, b: seq<Section>)
    requires forall x :: x in a <==> x in b
    ensures forall s :: s in NamesOf(a) <==> s in NamesOf(b)
  {
    forall i | 0 <= i < |a| ensures NamesOf(a)[i] in NamesOf(b) { InNames(b, a[i]); }
    forall i | 0 <= i < |b| ensures NamesOf(b)[i] in NamesOf(a) { InNames(a, b[i]); }
  }

  lemma InNames(a: seq<Section>, x: Section)
    requires x in a
    ensures NameOf(x) in NamesOf(a)
  {
    var i :| 0 <= i < |a| && a[i] == x;
    assert NamesOf(a)[i] == NameOf(x);
  }

  method NumberFromZero(ghost st: State, ghost conf: string, ghost typ: string, sa: seq<Section>) returns (r: seq<Section>)
    requires Inv(st) && Collected(st, conf, typ, sa) && SortedOn(sa, IndexOf)
    requires forall s :: s in NamesOf(sa) <==> Listable(st, conf, typ, s)
    ensures IsListing(st, conf, typ, r)
  {
    r := sa;
    for i := 0 to |sa|
      invariant |r| == |sa| && r[i..] == sa[i..]
      invariant forall k :: 0 <= k < i ==> r[k] == sa[k][".index" := Num(k)]
    {
      r := r[i := r[i][".index" := Num(i)]];
    }
    NumberedIsListing(st, conf, typ, sa, r);
  }

  lemma NumberedIsListing(st: State, conf: string, typ: string, sa: seq<Section>, r: seq<Section>)
    requires Inv(st) && Collected(st, conf, typ, sa) && SortedOn(sa, IndexOf)
    requires forall s :: s in NamesOf(sa) <==> Listable(st, conf, typ, s)
    requires |r| == |sa| && forall k :: 0 <= k < |sa| ==> r[k] == sa[k][".index" := Num(k)]
    ensures IsListing(st, conf, typ, r)
  {
    forall i | 0 <= i < |sa|
      ensures NameOf(r[i]) == NameOf(sa[i])
      ensures sa[i] == Listed(EntryAt(st, conf, NameOf(sa[i])))
    {
      assert sa[i] in sa;
    }
    assert NamesOf(r) == NamesOf(sa);
    IndexesArePositions(st, conf, sa);
  }

  lemma IndexesArePositions(st: State, conf: string, sa: seq<Section>)
    requires SortedOn(sa, IndexOf) && forall i :: 0 <= i < |sa| ==> sa[i] == Listed(EntryAt(st, conf, NameOf(sa[i])))
    ensures SortedBy(NamesOf(sa), s => Position(st, conf, s))
  {
    assert forall i :: 0 <= i < |sa| ==> Position(st, conf, NamesOf(sa)[i]) == IndexOf(sa[i]);
  }
}
