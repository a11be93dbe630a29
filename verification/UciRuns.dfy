/** The edits of the UCI store, and every run of them compared with a plain table of sections. */
module UciRuns {
  import opened Common
  import opened UciState

  function EntryAt(st: State, conf: string, sid: string): Entry {
    Entry(At(st.values, conf, sid), At(st.creates, conf, sid), At(st.changes, conf, sid), At(st.deletes, conf, sid))
  }

  function WithEntry(st: State, conf: string, sid: string, e: Entry): (st': State)
    ensures forall c, s {:trigger EntryAt(st', c, s)} ::
              EntryAt(st', c, s) == if c == conf && s == sid then e else EntryAt(st, c, s)
  {
    st.(values := Store(st.values, conf, sid, e.loaded), creates := Store(st.creates, conf, sid, e.created),
        changes := Store(st.changes, conf, sid, e.changed), deletes := Store(st.deletes, conf, sid, e.deleted))
  }

  ghost predicate Inv(st: State) { forall c, s {:trigger EntryAt(st, c, s)} :: EntryAt(st, c, s).Inv(s) }

  function Shown(st: State, conf: string, sid: string): Option<Section> { EntryAt(st, conf, sid).Shown() }

  function Read(st: State, conf: string, sid: string, opt: string): Option<Value> {
    EntryAt(st, conf, sid).Read(opt)
  }

  predicate Live(st: State, conf: string, sid: string) { Shown(st, conf, sid).Some? }

  function NewSection(typ: string, sid: string, named: bool, index: int): Section {
    var sec := map[".type" := Str(typ), ".name" := Str(sid), ".anonymous" := Flag(!named), ".index" := Num(index)];
    if named then sec[".create" := Str(sid)] else sec
  }

  function AddSection(st: State, conf: string, typ: string, sid: string, named: bool): State {
    WithEntry(st, conf, sid, EntryAt(st, conf, sid).(created := Some(NewSection(typ, sid, named, 1000 + st.newidx))))
      .(newidx := st.newidx + 1)
  }

  function RemoveSection(st: State, conf: string, sid: string): State {
    WithEntry(st, conf, sid, EntryAt(st, conf, sid).Removed())
  }

  function SetOption(st: State, conf: string, sid: string, opt: string, val: Option<Value>): State {
    WithEntry(st, conf, sid, EntryAt(st, conf, sid).With(opt, val))
  }

  function MergeSection(st: State, conf: string, sid: string): State {
    WithEntry(st, conf, sid, EntryAt(st, conf, sid).Merged())
  }

  // ---- Runs -------------------------------------------------------------------------------

  datatype Op =
    | Add(conf: string, typ: string, sid: string, named: bool)
    | Remove(conf: string, sid: string)
    | Set(conf: string, sid: string, opt: string, val: Option<Value>)
    | ReadSection(conf: string, sid: string)

  /** A new section must not take the name of a live one; nothing else is asked of a run. */
  predicate Allowed(st: State, op: Op) { op.Add? ==> !Live(st, op.conf, op.sid) }

  function Step(st: State, op: Op): State {
    match op
    case Add(conf, typ, sid, named) => AddSection(st, conf, typ, sid, named)
    case Remove(conf, sid) => RemoveSection(st, conf, sid)
    case Set(conf, sid, opt, val) => SetOption(st, conf, sid, opt, val)
    case ReadSection(conf, sid) => MergeSection(st, conf, sid)
  }

  predicate AllowedRun(st: State, ops: seq<Op>)
    decreases ops
  {
    ops == [] || (Allowed(st, ops[0]) && AllowedRun(Step(st, ops[0]), ops[1..]))
  }

  function Run(st: State, ops: seq<Op>): State
    decreases ops
  {
    if ops == [] then st else Run(Step(st, ops[0]), ops[1..])
  }

  datatype Id = Id(conf: string, sid: string)

  /** The plain picture of the store: its live sections, which of them are new, how many were added. */
  datatype Plain = Plain(rows: map<Id, Section>, created: set<Id>, added: nat)

  function Row(p: Plain, conf: string, sid: string): Option<Section> {
    if Id(conf, sid) in p.rows then Some(p.rows[Id(conf, sid)]) else None
  }

  function WithRow(p: Plain, id: Id, row: Option<Section>, created: bool): Plain {
    p.(rows := if row.Some? then p.rows[id := row.value] else p.rows - {id},
       created := if created then p.created + {id} else p.created - {id})
  }

  function PlainStep(p: Plain, op: Op): Plain {
    var id := Id(op.conf, op.sid);
    match op
    case Add(conf, typ, sid, named) =>
      WithRow(p, id, Some(NewSection(typ, sid, named, 1000 + p.added)), true).(added := p.added + 1)
    case Remove(conf, sid) => WithRow(p, id, None, false)
    case Set(conf, sid, opt, val) =>
      WithRow(p, id, PlainSet(Row(p, conf, sid), id in p.created, opt, val), id in p.created)
    case ReadSection(conf, sid) => p
  }

  function PlainRun(p: Plain, ops: seq<Op>): Plain
    decreases ops
  {
    if ops == [] then p else PlainRun(PlainStep(p, ops[0]), ops[1..])
  }

  /** One section and its row. */
  ghost predicate MatchesAt(e: Entry, p: Plain, id: Id) {
    e.Shown() == Row(p, id.conf, id.sid) && (e.created.Some? <==> id in p.created)
  }

  ghost predicate Matches(st: State, p: Plain) {
    st.newidx == p.added && forall c, s {:trigger EntryAt(st, c, s)} :: MatchesAt(EntryAt(st, c, s), p, Id(c, s))
  }

  lemma EntryEdited(st: State, conf: string, sid: string, e: Entry, st': State, c: string, s: string)
    requires st' == WithEntry(st, conf, sid, e)
    ensures EntryAt(st', c, s) == if c == conf && s == sid then e else EntryAt(st, c, s)
  {
    hide WithEntry;
  }

  /** Nothing but the section (conf, sid) differs, and that one now shows `now`. */
  ghost predicate OnlyChange(st: State, st': State, conf: string, sid: string, now: Option<Section>) {
    forall c, s :: Shown(st', c, s) == if c == conf && s == sid then now else Shown(st, c, s)
  }

  lemma EditsOnlyChange(st: State, conf: string, sid: string, opt: string, val: Option<Value>)
    requires Inv(st)
    ensures OnlyChange(st, RemoveSection(st, conf, sid), conf, sid, None)
    ensures OnlyChange(st, MergeSection(st, conf, sid), conf, sid, Shown(st, conf, sid))
    ensures OnlyChange(st, SetOption(st, conf, sid, opt, val), conf, sid,
                       PlainSet(Shown(st, conf, sid), EntryAt(st, conf, sid).created.Some?, opt, val))
  {
    var e := EntryAt(st, conf, sid);
    assert e.Inv(sid);
    RemovedIsPlain(e, sid);
    MergedShowsTheSame(e, sid);
    WithIsPlain(e, sid, opt, val);
    EditShows(st, conf, sid, e.Removed(), RemoveSection(st, conf, sid));
    EditShows(st, conf, sid, e.Merged(), MergeSection(st, conf, sid));
    EditShows(st, conf, sid, e.With(opt, val), SetOption(st, conf, sid, opt, val));
  }

  lemma EditShows(st: State, conf: string, sid: string, e: Entry, st': State)
    requires st' == WithEntry(st, conf, sid, e)
    ensures OnlyChange(st, st', conf, sid, e.Shown())
  {
    forall c, s ensures Shown(st', c, s) == if c == conf && s == sid then e.Shown() else Shown(st, c, s) {
      EntryEdited(st, conf, sid, e, st', c, s);
    }
  }

  lemma AddOnlyChanges(st: State, conf: string, typ: string, sid: string, named: bool)
    ensures OnlyChange(st, AddSection(st, conf, typ, sid, named), conf, sid,
                       Some(NewSection(typ, sid, named, 1000 + st.newidx)))
    ensures var st' := AddSection(st, conf, typ, sid, named);
            && Read(st', conf, sid, ".type") == Some(Str(typ)) && Read(st', conf, sid, ".name") == Some(Str(sid))
            && Read(st', conf, sid, ".anonymous") == Some(Flag(!named))
            && Read(st', conf, sid, ".index") == Some(Num(1000 + st.newidx)) && st'.newidx == st.newidx + 1
            && Read(st', conf, sid, ".create") == (if named then Some(Str(sid)) else None)
            && forall o :: !Dotted(o) ==> Read(st', conf, sid, o) == None
  {
    var st' := AddSection(st, conf, typ, sid, named);
    assert EntryAt(st', conf, sid).created == Some(NewSection(typ, sid, named, 1000 + st.newidx));
    forall c, s
      ensures Shown(st', c, s) ==
                if c == conf && s == sid then Some(NewSection(typ, sid, named, 1000 + st.newidx)) else Shown(st, c, s)
    {
      assert c != conf || s != sid ==> EntryAt(st', c, s) == EntryAt(st, c, s);
    }
  }

  lemma RowEdited(p: Plain, id: Id, row: Option<Section>, created: bool, other: Id)
    ensures var p' := WithRow(p, id, row, created);
            && Row(p', other.conf, other.sid) == (if other == id then row else Row(p, other.conf, other.sid))
            && (other in p'.created <==> if other == id then created else other in p.created)
            && p'.added == p.added
  {
  }

  /** An edit of one entry is an edit of one row. */
  lemma EntryIsRow(st: State, p: Plain, id: Id, e: Entry, st': State, p': Plain)
    requires Inv(st) && Matches(st, p) && e.Inv(id.sid)
    requires st' == WithEntry(st, id.conf, id.sid, e) && p' == WithRow(p, id, e.Shown(), e.created.Some?)
    ensures Inv(st') && Matches(st', p')
  {
    forall c, s ensures EntryAt(st', c, s).Inv(s) && MatchesAt(EntryAt(st', c, s), p', Id(c, s)) {
      EntryEdited(st, id.conf, id.sid, e, st', c, s);
      assert EntryAt(st, c, s).Inv(s) && MatchesAt(EntryAt(st, c, s), p, Id(c, s));
      RowEdited(p, id, e.Shown(), e.created.Some?, Id(c, s));
    }
  }

  lemma StepRefines(st: State, p: Plain, op: Op)
    requires Inv(st) && Matches(st, p) && Allowed(st, op)
    ensures Inv(Step(st, op)) && Matches(Step(st, op), PlainStep(p, op))
  {
    match op
    case Add(conf, typ, sid, named) => AddRefines(st, p, conf, typ, sid, named);
    case Remove(conf, sid) => RemoveRefines(st, p, conf, sid);
    case Set(conf, sid, opt, val) => SetRefines(st, p, conf, sid, opt, val);
    case ReadSection(conf, sid) => ReadRefines(st, p, conf, sid);
  }

  lemma RemoveRefines(st: State, p: Plain, conf: string, sid: string)
    requires Inv(st) && Matches(st, p)
    ensures var op := Remove(conf, sid); Inv(Step(st, op)) && Matches(Step(st, op), PlainStep(p, op))
  {
    var e := EntryAt(st, conf, sid);
    RemovedIsPlain(e, sid);
    EntryIsRow(st, p, Id(conf, sid), e.Removed(), RemoveSection(st, conf, sid), WithRow(p, Id(conf, sid), None, false));
  }

  lemma SetRefines(st: State, p: Plain, conf: string, sid: string, opt: string, val: Option<Value>)
    requires Inv(st) && Matches(st, p)
    ensures var op := Set(conf, sid, opt, val); Inv(Step(st, op)) && Matches(Step(st, op), PlainStep(p, op))
  {
    hide WithEntry, WithRow, PlainSet, Entry.With, Entry.Shown;
    var e, id := EntryAt(st, conf, sid), Id(conf, sid);
    assert e.Inv(sid) && MatchesAt(e, p, id);
    WithIsPlain(e, sid, opt, val);
    WithKeepsCreated(e, opt, val);
    var row := PlainSet(Row(p, conf, sid), id in p.created, opt, val);
    EntryIsRow(st, p, id, e.With(opt, val), SetOption(st, conf, sid, opt, val), WithRow(p, id, row, id in p.created));
  }

  lemma WithKeepsCreated(e: Entry, opt: string, val: Option<Value>)
    ensures e.With(opt, val).created.Some? <==> e.created.Some?
  {
  }

  lemma ReadRefines(st: State, p: Plain, conf: string, sid: string)
    requires Inv(st) && Matches(st, p)
    ensures Inv(MergeSection(st, conf, sid)) && Matches(MergeSection(st, conf, sid), p)
  {
    var e, id := EntryAt(st, conf, sid), Id(conf, sid);
    assert e.Inv(sid) && MatchesAt(e, p, id);
    MergedShowsTheSame(e, sid);
    SameRow(p, id);
    EntryIsRow(st, p, id, e.Merged(), MergeSection(st, conf, sid), p);
  }

  lemma SameRow(p: Plain, id: Id)
    ensures WithRow(p, id, Row(p, id.conf, id.sid), id in p.created) == p
  {
  }

  lemma AddRefines(st: State, p: Plain, conf: string, typ: string, sid: string, named: bool)
    requires Inv(st) && Matches(st, p) && !Live(st, conf, sid)
    ensures var op := Add(conf, typ, sid, named); Inv(Step(st, op)) && Matches(Step(st, op), PlainStep(p, op))
  {
    hide WithEntry;
    var sec := NewSection(typ, sid, named, 1000 + st.newidx);
    var e := EntryAt(st, conf, sid).(created := Some(sec));
    assert EntryAt(st, conf, sid).Inv(sid);
    AddedInv(EntryAt(st, conf, sid), sid, sec);
    var st', p' := WithEntry(st, conf, sid, e), WithRow(p, Id(conf, sid), Some(sec), true);
    EntryIsRow(st, p, Id(conf, sid), e, st', p');
    Counted(st', p', st'.(newidx := st'.newidx + 1), p'.(added := p'.added + 1));
  }

  lemma AddedInv(e: Entry, sid: string, sec: Section)
    requires e.Inv(sid) && e.Shown().None? && IsSection(sec, sid)
    ensures e.(created := Some(sec)).Inv(sid) && e.(created := Some(sec)).Shown() == Some(sec)
  {
  }

  lemma Counted(st: State, p: Plain, st': State, p': Plain)
    requires Inv(st) && Matches(st, p) && st' == st.(newidx := st.newidx + 1) && p' == p.(added := p.added + 1)
    ensures Inv(st') && Matches(st', p')
  {
    forall c, s ensures EntryAt(st', c, s).Inv(s) && MatchesAt(EntryAt(st', c, s), p', Id(c, s)) {
      assert EntryAt(st', c, s) == EntryAt(st, c, s) && EntryAt(st, c, s).Inv(s);
      assert MatchesAt(EntryAt(st, c, s), p, Id(c, s));
    }
  }

  lemma SamePackages(st: State, conf: string, sid: string, e: Entry)
    requires e.loaded.Some? ==> conf in st.values
    ensures WithEntry(st, conf, sid, e).values.Keys == st.values.Keys
  {
  }

  /** What a step does to the entry that it names. */
  function Stepped(e: Entry, op: Op, newidx: nat): Entry {
    match op
    case Add(_, typ, sid, named) => e.(created := Some(NewSection(typ, sid, named, 1000 + newidx)))
    case Remove(_, _) => e.Removed()
    case Set(_, _, opt, val) => e.With(opt, val)
    case ReadSection(_, _) => e.Merged()
  }

  lemma StepIsEdit(st: State, op: Op)
    ensures var st' := WithEntry(st, op.conf, op.sid, Stepped(EntryAt(st, op.conf, op.sid), op, st.newidx));
            Step(st, op) == if op.Add? then st'.(newidx := st.newidx + 1) else st'
  {
    hide WithEntry;
  }

  /** An edit of one entry touches no other entry and no package table. */
  lemma StepEntries(st: State, op: Op, c: string, s: string)
    ensures Step(st, op).values.Keys == st.values.Keys
    ensures EntryAt(Step(st, op), c, s) ==
              if c == op.conf && s == op.sid then Stepped(EntryAt(st, c, s), op, st.newidx) else EntryAt(st, c, s)
  {
    var e := EntryAt(st, op.conf, op.sid);
    var e' := Stepped(e, op, st.newidx);
    StepIsEdit(st, op);
    assert e'.loaded.Some? ==> e.loaded.Some?;
    SamePackages(st, op.conf, op.sid, e');
    hide Stepped, Step, WithEntry;
    var st' := WithEntry(st, op.conf, op.sid, e');
    assert EntryAt(st', c, s) == if c == op.conf && s == op.sid then e' else EntryAt(st, c, s);
  }

  lemma SteppedInv(e: Entry, op: Op, newidx: nat)
    requires e.Inv(op.sid) && (op.Add? ==> e.Shown().None?)
    ensures Stepped(e, op, newidx).Inv(op.sid)
  {
    match op
    case Add(_, typ, sid, named) => AddedInv(e, sid, NewSection(typ, sid, named, 1000 + newidx));
    case Remove(_, sid) => RemovedIsPlain(e, sid);
    case Set(_, sid, opt, val) => WithIsPlain(e, sid, opt, val);
    case ReadSection(_, sid) => MergedShowsTheSame(e, sid);
  }

  lemma StepInv(st: State, op: Op)
    requires Inv(st) && Allowed(st, op)
    ensures Inv(Step(st, op))
  {
    forall c, s ensures EntryAt(Step(st, op), c, s).Inv(s) {
      hide Step, Stepped;
      StepEntries(st, op, c, s);
      assert EntryAt(st, c, s).Inv(s);
      if c == op.conf && s == op.sid { SteppedInv(EntryAt(st, c, s), op, st.newidx); }
    }
  }

  /** Every run of edits, whole-section reads included, shows what the plain table shows. */
  lemma {:induction false} RunRefines(st: State, p: Plain, ops: seq<Op>)
    requires Inv(st) && Matches(st, p) && AllowedRun(st, ops)
    ensures Inv(Run(st, ops)) && Matches(Run(st, ops), PlainRun(p, ops))
    ensures forall c, s, o :: Read(Run(st, ops), c, s, o) ==
              match Row(PlainRun(p, ops), c, s) case Some(sec) => Opt(sec, o) case None => None
    decreases ops
  {
    if ops == [] {
      forall c, s, o
        ensures Read(st, c, s, o) == match Row(p, c, s) case Some(sec) => Opt(sec, o) case None => None
      {
        assert EntryAt(st, c, s).Inv(s) && MatchesAt(EntryAt(st, c, s), p, Id(c, s));
        ReadIsShown(EntryAt(st, c, s), s, o);
      }
    } else {
      StepRefines(st, p, ops[0]);
      RunRefines(Step(st, ops[0]), PlainStep(p, ops[0]), ops[1..]);
    }
  }
}
