/** The state of the UCI client store and the meaning of its reads. */
module UciState {
  import opened Common

  // The store keeps the sections the server answered (`values`) beside the edits that are still
  // pending: sections to create, options to change, options or whole sections to delete, and the
  // packages whose section order has to be sent.  A section is the flat object of the source: its
  // options and its meta data, whose names start with a dot.

  datatype Value = Str(text: string) | List(items: seq<string>) | Num(n: int) | Flag(on: bool)

  type Section = map<string, Value>

  /** Two-level tables: package, then section name. */
  type Table<T> = map<string, map<string, T>>

  datatype Deletion = Whole | Options(opts: set<string>)

  datatype State = State(
    values: Table<Section>,
    creates: Table<Section>,
    changes: Table<Section>,
    deletes: Table<Deletion>,
    reorder: set<string>,
    newidx: nat)

  // ---- Two-level tables -------------------------------------------------------------------

  function At<T>(t: Table<T>, conf: string, sid: string): Option<T> {
    if conf in t && sid in t[conf] then Some(t[conf][sid]) else None
  }

  function Put<T>(t: Table<T>, conf: string, sid: string, x: T): Table<T> {
    t[conf := (if conf in t then t[conf] else map[])[sid := x]]
  }

  function Drop<T>(t: Table<T>, conf: string, sid: string): Table<T> {
    if conf in t then t[conf := t[conf] - {sid}] else t
  }

  function Store<T(==)>(t: Table<T>, conf: string, sid: string, x: Option<T>): (r: Table<T>)
    ensures forall c, s {:trigger At(r, c, s)} :: At(r, c, s) == if c == conf && s == sid then x else At(t, c, s)
  {
    if At(t, conf, sid) == x then t
    else if x.Some? then Put(t, conf, sid, x.value)
    else Drop(t, conf, sid)
  }

  /** `delete t[conf][sid]` and the assignment that creates t[conf] when it is missing. */
  lemma StoreIsAssignment<T>(t: Table<T>, conf: string, sid: string, x: T)
    ensures Store(t, conf, sid, Some(x)) == Put(t, conf, sid, x)
    ensures Store(t, conf, sid, None) == Drop(t, conf, sid)
  {
    if At(t, conf, sid) == Some(x) { assert t[conf][sid := x] == t[conf]; }
    if At(t, conf, sid) == None && conf in t { assert t[conf] - {sid} == t[conf]; }
  }

  // ---- One section in the store -----------------------------------------------------------

  /** What the four tables hold under one section name. */
  datatype Entry = Entry(
    loaded: Option<Section>,
    created: Option<Section>,
    changed: Option<Section>,
    deleted: Option<Deletion>)
  {
    predicate Gone() { deleted == Some(Whole) }

    function Changes(): Section { if changed.Some? then changed.value else map[] }

    function Deletions(): set<string> {
      if deleted.Some? && deleted.value.Options? then deleted.value.opts else {}
    }

    /** The section that all option reads together show, if it exists. */
    function Shown(): Option<Section> {
      if created.Some? then created
      else if loaded.Some? && !Gone() then Some(loaded.value + Changes() - Deletions())
      else None
    }

    /** The overlay lookup of one option, branch by branch. */
    function Read(opt: string): Option<Value> {
      if created.Some? then Opt(created.value, opt)
      else if deleted.Some? && (deleted.value.Whole? || opt in deleted.value.opts) then None
      else if changed.Some? && opt in changed.value then Some(changed.value[opt])
      else if loaded.Some? then Opt(loaded.value, opt)
      else None
    }

    /**
     * What every run keeps: a created section hides at most a wholly deleted one; changes and deletes
     * sit on loaded sections only, are never empty, never touch meta data and share no option; a wholly
     * deleted section has no changes.
     */
    ghost predicate Inv(sid: string) {
      && (loaded.Some? ==> IsSection(loaded.value, sid))
      && (created.Some? ==> IsSection(created.value, sid))
      && (created.Some? && loaded.Some? ==> Gone())
      && (changed.Some? ==> loaded.Some? && !Gone() && changed.value != map[] && NoneDotted(changed.value.Keys))
      && (deleted.Some? ==> loaded.Some?)
      && (deleted.Some? && deleted.value.Options? ==> Deletions() != {} && NoneDotted(Deletions()))
      && Deletions() !! Changes().Keys
    }

    function Removed(): Entry {
      if created.Some? then this.(created := None)
      else if loaded.Some? then this.(changed := None, deleted := Some(Whole))
      else this
    }

    /** What `set` does to an existing section when it is given a value. */
    function WithChange(opt: string, val: Value): Entry {
      if Gone() || loaded.None? then this
      else this.(
        deleted := if deleted.None? || IsEmpty(Deletions(), opt) then None
                   else Some(Options(Deletions() - {opt})),
        changed := Some(Changes()[opt := val]))
    }

    /** What `set` does to an existing section when it is given null or "". */
    function WithDeletion(opt: string): Entry {
      this.(
        changed := if changed.None? || IsEmpty(Changes().Keys, opt) then None else Some(Changes() - {opt}),
        deleted := if loaded.None? || opt !in loaded.value || Gone() then deleted
                   else Some(Options(Deletions() + {opt})))
    }

    function With(opt: string, val: Option<Value>): Entry {
      if Dotted(opt) then this
      else if created.Some? then
        this.(created := Some(if val.Some? then created.value[opt := val.value] else created.value - {opt}))
      else if val.Some? && val.value != Str("") then WithChange(opt, val.value)
      else WithDeletion(opt)
    }

    /** `get(conf, sid)`: pending edits of a loaded section are written into the snapshot. */
    function Merged(): Entry {
      if created.Some? || loaded.None? || Gone() then this
      else this.(loaded := Some(loaded.value + Changes() - Deletions()))
    }
  }

  predicate Dotted(opt: string) { opt != "" && opt[0] == '.' }

  function Opt(sec: Section, opt: string): Option<Value> { if opt in sec then Some(sec[opt]) else None }

  predicate IsSection(sec: Section, sid: string) {
    && ".name" in sec && sec[".name"] == Str(sid)
    && ".type" in sec && sec[".type"].Str?
    && ".index" in sec && sec[".index"].Num?
  }

  ghost predicate NoneDotted(names: set<string>) { forall o :: o in names ==> !Dotted(o) }

  /** `isEmpty(object, ignore)`: no property but the ignored one. */
  predicate IsEmpty(props: set<string>, ignore: string) { props <= {ignore} }

  lemma ReadIsShown(e: Entry, sid: string, opt: string)
    requires e.Inv(sid)
    ensures e.Read(opt) == match e.Shown() case Some(sec) => Opt(sec, opt) case None => None
  {
  }

  /** The plain map operation behind `set`: null and "" delete, except that a new section stores ""; meta data stays. */
  function PlainSet(sec: Option<Section>, created: bool, opt: string, val: Option<Value>): Option<Section> {
    if sec.None? || (opt != "" && opt[0] == '.') then sec
    else if val.None? || (val == Some(Str("")) && !created) then Some(sec.value - {opt})
    else Some(sec.value[opt := val.value])
  }

  lemma RemovedIsPlain(e: Entry, sid: string)
    requires e.Inv(sid)
    ensures e.Removed().Inv(sid) && e.Removed().Shown() == None
  {
  }

  lemma WithChangeIsPlain(e: Entry, sid: string, opt: string, val: Value)
    requires e.Inv(sid) && e.created.None? && !Dotted(opt) && val != Str("")
    ensures e.WithChange(opt, val).Inv(sid)
    ensures e.WithChange(opt, val).Shown() == PlainSet(e.Shown(), false, opt, Some(val))
  {
    var e' := e.WithChange(opt, val);
    if e.Shown().Some? {
      var v, c, d := e.loaded.value, e.Changes(), e.Deletions();
      assert e'.Deletions() == d - {opt};
      assert opt in e'.Changes();
      assert (v + c - d)[opt := val] == v + c[opt := val] - (d - {opt});
    }
  }

  lemma WithDeletionIsPlain(e: Entry, sid: string, opt: string)
    requires e.Inv(sid) && e.created.None? && !Dotted(opt)
    ensures e.WithDeletion(opt).Inv(sid)
    ensures e.WithDeletion(opt).Shown() == PlainSet(e.Shown(), false, opt, None)
  {
    var e' := e.WithDeletion(opt);
    if e.Shown().Some? {
      var v, c, d := e.loaded.value, e.Changes(), e.Deletions();
      var d' := if opt in v then d + {opt} else d;
      assert e'.Deletions() == d';
      assert e'.Changes() == c - {opt};
      assert (v + c - d) - {opt} == v + (c - {opt}) - d';
      if opt in v { assert opt in e'.Deletions(); }
      if e'.changed.Some? {
        var o :| o in c.Keys && o != opt;
        assert o in e'.Changes();
      }
    }
  }

  lemma WithIsPlain(e: Entry, sid: string, opt: string, val: Option<Value>)
    requires e.Inv(sid)
    ensures e.With(opt, val).Inv(sid)
    ensures e.With(opt, val).Shown() == PlainSet(e.Shown(), e.created.Some?, opt, val)
  {
    if !Dotted(opt) && e.created.None? {
      if val.Some? && val.value != Str("") { WithChangeIsPlain(e, sid, opt, val.value); }
      else { WithDeletionIsPlain(e, sid, opt); }
    }
  }

  lemma MergedShowsTheSame(e: Entry, sid: string)
    requires e.Inv(sid)
    ensures e.Merged().Inv(sid) && e.Merged().Shown() == e.Shown()
  {
    if e.Merged() != e {
      var v, c, d := e.loaded.value, e.Changes(), e.Deletions();
      assert (v + c - d) + c - d == v + c - d;
    }
  }
}
