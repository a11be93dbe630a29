/** `save`: the pending edits are sent to the server as calls, and the touched packages are fetched again. */
module UciSave {
  import opened Common
  import opened UciState
  import opened UciRuns
  import opened UciOrder
  import opened UciMoves

  // The calls come in three groups.  The theorems compare what the server then holds with what the
  // reads showed before, for every order in which the calls of one group are enumerated.

  // ---- The server -------------------------------------------------------------------------

  datatype ServerSection = ServerSection(typ: Value, opts: Section)

  type Server = map<Id, ServerSection>

  datatype Call =
    | Delete(id: Id, opts: Option<set<string>>)
    | Create(id: Id, typ: Value, opts_: Section)
    | Update(id: Id, vals: Section)

  function Lookup(srv: Server, id: Id): Option<ServerSection> { if id in srv then Some(srv[id]) else None }

  /** What a call does to the one section it names; deleting or updating a missing section does nothing. */
  function Effect(call: Call, cur: Option<ServerSection>): Option<ServerSection> {
    match call
    case Delete(_, None) => None
    case Delete(_, Some(opts)) =>
      if cur.None? then None else Some(cur.value.(opts := cur.value.opts - opts))
    case Create(_, typ, opts) => Some(ServerSection(typ, opts))
    case Update(_, vals) =>
      if cur.None? then None else Some(cur.value.(opts := cur.value.opts + vals))
  }

  function Apply(srv: Server, call: Call): Server {
    match Effect(call, Lookup(srv, call.id))
    case Some(s) => srv[call.id := s]
    case None => srv - {call.id}
  }

  function Replay(srv: Server, calls: seq<Call>): Server
    decreases calls
  {
    if calls == [] then srv else Replay(Apply(srv, calls[0]), calls[1..])
  }

  ghost predicate ServerOk(srv: Server) { forall id :: id in srv ==> NoneDotted(srv[id].opts.Keys) && srv[id].typ.Str? }

  // ---- The calls of a save ----------------------------------------------------------------

  /** The options of a section without its meta data. */
  function PlainOpts(sec: Section): Section { map o | o in sec && !Dotted(o) :: sec[o] }

  datatype Group = Deletes | Creates | Updates

  /** The call that one group sends for one section, if any. */
  function CallFor(st: State, g: Group, id: Id): Option<Call> {
    var e := EntryAt(st, id.conf, id.sid);
    match g
    case Deletes =>
      if e.deleted.None? then None
      else Some(Delete(id, if e.Gone() then None else Some(e.Deletions())))
    case Creates =>
      if e.created.None? then None
      else Some(Create(id, Opt(e.created.value, ".type").GetOr(Str("")), PlainOpts(e.created.value)))
    case Updates => if e.changed.None? then None else Some(Update(id, e.changed.value))
  }

  ghost predicate Distinct(calls: seq<Call>) {
    forall i, j :: 0 <= i < j < |calls| ==> calls[i].id != calls[j].id
  }

  /** The calls are those of the group, each once, in any order. */
  ghost predicate Enumerates(calls: seq<Call>, st: State, g: Group) {
    && Distinct(calls)
    && (forall i :: 0 <= i < |calls| ==> CallFor(st, g, calls[i].id) == Some(calls[i]))
    && (forall id :: CallFor(st, g, id).Some? ==> Contains(calls, id))
  }

  ghost predicate Contains(calls: seq<Call>, id: Id) { exists i :: 0 <= i < |calls| && calls[i].id == id }

  lemma {:induction false} ReplayMisses(srv: Server, calls: seq<Call>, id: Id)
    requires !Contains(calls, id)
    ensures Lookup(Replay(srv, calls), id) == Lookup(srv, id)
    decreases calls
  {
    if calls != [] {
      assert calls[0].id != id;
      assert forall i :: 0 <= i < |calls[1..]| ==> calls[1..][i] == calls[i + 1];
      ReplayMisses(Apply(srv, calls[0]), calls[1..], id);
    }
  }

  lemma {:induction false} ReplayHits(srv: Server, calls: seq<Call>, k: nat)
    requires Distinct(calls) && k < |calls|
    ensures Lookup(Replay(srv, calls), calls[k].id) == Effect(calls[k], Lookup(srv, calls[k].id))
    decreases calls
  {
    var rest := calls[1..];
    assert forall i :: 0 <= i < |rest| ==> rest[i] == calls[i + 1];
    if k == 0 {
      ReplayMisses(Apply(srv, calls[0]), rest, calls[0].id);
    } else {
      assert calls[0].id != calls[k].id && rest[k - 1] == calls[k];
      ReplayHits(Apply(srv, calls[0]), rest, k - 1);
    }
  }

  lemma {:induction false} ReplayConcat(srv: Server, a: seq<Call>, b: seq<Call>)
    ensures Replay(srv, a + b) == Replay(Replay(srv, a), b)
    decreases a
  {
    if a == [] {
      assert a + b == b;
    } else {
      assert (a + b)[1..] == a[1..] + b;
      ReplayConcat(Apply(srv, a[0]), a[1..], b);
    }
  }

  function GroupEffect(st: State, g: Group, id: Id, cur: Option<ServerSection>): Option<ServerSection> {
    var call := CallFor(st, g, id);
    if call.Some? then Effect(call.value, cur) else cur
  }

  /** Replaying a group acts on every section by itself, so the order inside the group is free. */
  lemma GroupReplay(srv: Server, calls: seq<Call>, st: State, g: Group, id: Id)
    requires Enumerates(calls, st, g)
    ensures Lookup(Replay(srv, calls), id) == GroupEffect(st, g, id, Lookup(srv, id))
  {
    if Contains(calls, id) {
      var k :| 0 <= k < |calls| && calls[k].id == id;
      ReplayHits(srv, calls, k);
    } else {
      ReplayMisses(srv, calls, id);
    }
  }

  /** Every new section has a name of its own; the others get one from the server. */
  ghost predicate AllNamed(st: State) {
    forall c, s {:trigger EntryAt(st, c, s)} ::
      EntryAt(st, c, s).created.Some? ==> ".create" in EntryAt(st, c, s).created.value
  }

  // ---- The snapshot and the server ----------------------------------------------------------

  /** The loaded section agrees with the server wherever no edit of the option is pending. */
  ghost predicate Follows(e: Entry, base: Option<ServerSection>) {
    && (e.loaded.Some? <==> base.Some?)
    && (e.loaded.Some? && !e.Gone() ==>
          && Opt(e.loaded.value, ".type") == Some(base.value.typ)
          && forall o :: o in e.loaded.value && !Dotted(o) && o !in e.Changes() && o !in e.Deletions() ==>
                           Opt(base.value.opts, o) == Some(e.loaded.value[o]))
  }

  /** The server has an option that neither the snapshot nor any pending edit knows of. */
  predicate LostAt(e: Entry, base: Option<ServerSection>, o: string) {
    && e.loaded.Some? && base.Some? && !e.Gone() && o in base.value.opts
    && o !in e.loaded.value && o !in e.Changes() && o !in e.Deletions()
  }

  ghost predicate Snapshot(st: State, srv: Server) {
    forall c, s :: c in st.values ==> Follows(EntryAt(st, c, s), Lookup(srv, Id(c, s)))
  }

  ghost predicate NothingLost(st: State, srv: Server, conf: string) {
    forall s, o :: !LostAt(EntryAt(st, conf, s), Lookup(srv, Id(conf, s)), o)
  }

  /** The snapshot still has every option of the server, so that `set` notices every deletion. */
  ghost predicate Covers(e: Entry, base: Option<ServerSection>) {
    e.loaded.Some? && base.Some? && !e.Gone() ==> base.value.opts.Keys <= e.loaded.value.Keys
  }

  ghost predicate Covered(st: State, srv: Server) {
    forall c, s {:trigger EntryAt(st, c, s)} :: c in st.values ==> Covers(EntryAt(st, c, s), Lookup(srv, Id(c, s)))
  }

  lemma CoveredLosesNothing(st: State, srv: Server, conf: string)
    requires Covered(st, srv) && conf in st.values
    ensures NothingLost(st, srv, conf)
  {
    forall s, o ensures !LostAt(EntryAt(st, conf, s), Lookup(srv, Id(conf, s)), o) {
      assert Covers(EntryAt(st, conf, s), Lookup(srv, Id(conf, s)));
    }
  }

  lemma EditFollows(e: Entry, sid: string, base: Option<ServerSection>, opt: string, val: Option<Value>)
    requires e.Inv(sid) && Follows(e, base)
    ensures Follows(e.Removed(), base) && Follows(e.Merged(), base) && Follows(e.With(opt, val), base)
  {
    var e' := e.With(opt, val);
    if e.loaded.Some? && !e.Gone() && e.created.None? && !Dotted(opt) {
      assert e'.Changes().Keys + e'.Deletions() >= e.Changes().Keys + e.Deletions() - {opt};
      assert opt in e.loaded.value ==> opt in e'.Changes().Keys + e'.Deletions();
    }
  }

  lemma IndexedFollows(e: Entry, sid: string, base: Option<ServerSection>, i: int)
    requires Follows(e, base) && e.Inv(sid)
    ensures Follows(Indexed(e, i), base)
  {
    EditFollows(e, sid, base, "", None);
    assert Dotted(".index");
  }

  /** Whole-section reads forget options whose deletion is pending; nothing else shrinks the snapshot. */
  lemma EditCovers(e: Entry, sid: string, base: Option<ServerSection>, opt: string, val: Option<Value>, i: int)
    requires e.Inv(sid) && Covers(e, base)
    ensures Covers(e.Removed(), base) && Covers(e.With(opt, val), base)
    ensures e.Deletions() == {} ==> Covers(e.Merged(), base) && Covers(Indexed(e, i), base)
  {
  }

  // ---- Runs -----------------------------------------------------------------------------------

  /** What one act does to one entry. */
  function Acted(st: State, act: Act, c: string, s: string): Entry {
    var e := EntryAt(st, c, s);
    match act
    case Edit(Add(conf, typ, sid, named)) =>
      if c == conf && s == sid then e.(created := Some(NewSection(typ, sid, named, 1000 + st.newidx))) else e
    case Edit(Remove(conf, sid)) => if c == conf && s == sid then e.Removed() else e
    case Edit(Set(conf, sid, opt, val)) => if c == conf && s == sid then e.With(opt, val) else e
    case Edit(ReadSection(conf, sid)) => if c == conf && s == sid then e.Merged() else e
    case Move(conf, m) => if c == conf && s in m then Indexed(e, Find(m, s)) else e
  }

  lemma DoEntry(st: State, act: Act, c: string, s: string)
    requires Inv(st) && Possible(st, act)
    ensures EntryAt(Do(st, act), c, s) == Acted(st, act, c, s)
  {
    hide Indexed, Moved, Find;
    match act
    case Edit(op) => StepEntries(st, op, c, s);
    case Move(conf, m) => MovedEntry(st, conf, m, c, s);
  }

  lemma AddFollows(e: Entry, base: Option<ServerSection>)
    ensures forall sec {:trigger e.(created := sec)} ::
              (Follows(e, base) ==> Follows(e.(created := sec), base)) && (Covers(e, base) ==> Covers(e.(created := sec), base))
  {
  }

  /** The act reads no section as a whole in which the deletion of an option is pending. */
  ghost predicate Careful(st: State, act: Act) {
    match act
    case Edit(op) => op.ReadSection? ==> EntryAt(st, op.conf, op.sid).Deletions() == {}
    case Move(conf, m) => forall s :: s in m ==> EntryAt(st, conf, s).Deletions() == {}
  }

  ghost predicate CarefulRun(st: State, acts: seq<Act>)
    decreases acts
  {
    acts == [] || (Careful(st, acts[0]) && CarefulRun(Do(st, acts[0]), acts[1..]))
  }

  lemma ActFollows(st: State, srv: Server, act: Act, c: string, s: string)
    requires Inv(st) && Possible(st, act)
    ensures Follows(EntryAt(st, c, s), Lookup(srv, Id(c, s))) ==> Follows(EntryAt(Do(st, act), c, s), Lookup(srv, Id(c, s)))
  {
    hide Do, Possible, Lookup, EntryAt;
    var e, base := EntryAt(st, c, s), Lookup(srv, Id(c, s));
    DoEntry(st, act, c, s);
    assert e.Inv(s);
    AddFollows(e, base);
    hide Follows, Indexed, Entry.With, Entry.Merged, Entry.Removed, Entry.Inv;
    if Follows(e, base) {
      match act
      case Edit(Set(conf, sid, opt, val)) => EditFollows(e, s, base, opt, val);
      case Edit(op) => EditFollows(e, s, base, "", None);
      case Move(conf, m) => IndexedFollows(e, s, base, Find(m, s));
    }
  }

  lemma ActCovers(st: State, srv: Server, act: Act, c: string, s: string)
    requires Inv(st) && Possible(st, act) && Careful(st, act)
    ensures Covers(EntryAt(st, c, s), Lookup(srv, Id(c, s))) ==> Covers(EntryAt(Do(st, act), c, s), Lookup(srv, Id(c, s)))
  {
    hide Do, Possible, Lookup, EntryAt;
    var e, base := EntryAt(st, c, s), Lookup(srv, Id(c, s));
    DoEntry(st, act, c, s);
    assert e.Inv(s);
    AddFollows(e, base);
    hide Covers, Indexed, Entry.With, Entry.Merged, Entry.Removed, Entry.Inv;
    if Covers(e, base) {
      match act
      case Edit(Set(conf, sid, opt, val)) => EditCovers(e, s, base, opt, val, 0);
      case Edit(op) => EditCovers(e, s, base, "", None, 0);
      case Move(conf, m) => EditCovers(e, s, base, "", None, Find(m, s));
    }
  }

  /** Over every run the snapshot follows the server; over every careful one no option of the server is forgotten. */
  lemma {:induction false} RunFollows(st: State, srv: Server, acts: seq<Act>)
    requires Inv(st) && Snapshot(st, srv) && PossibleRun(st, acts)
    ensures Inv(DoAll(st, acts)) && Snapshot(DoAll(st, acts), srv) && DoAll(st, acts).values.Keys == st.values.Keys
    ensures Covered(st, srv) && CarefulRun(st, acts) ==> Covered(DoAll(st, acts), srv)
    decreases acts
  {
    if acts != [] {
      hide Do, Possible, Careful, Follows, Covers, EntryAt;
      var st' := Do(st, acts[0]);
      DoInv(st, acts[0]);
      forall c, s | c in st'.values ensures Follows(EntryAt(st', c, s), Lookup(srv, Id(c, s))) {
        ActFollows(st, srv, acts[0], c, s);
      }
      if Covered(st, srv) && CarefulRun(st, acts) {
        forall c, s | c in st'.values ensures Covers(EntryAt(st', c, s), Lookup(srv, Id(c, s))) {
          ActCovers(st, srv, acts[0], c, s);
        }
      }
      RunFollows(st', srv, acts[1..]);
    }
  }

  // ---- What is lost ---------------------------------------------------------------------------

  /** The guard that misses a deletion: the option has a pending value, but is not in the snapshot any more. */
  predicate Forgets(e: Entry, base: Option<ServerSection>, opt: string, val: Option<Value>) {
    && !Dotted(opt) && (val.None? || val.value == Str("")) && opt in e.Changes()
    && e.created.None? && e.loaded.Some? && !e.Gone() && opt !in e.loaded.value
    && base.Some? && opt in base.value.opts
  }

  /** Only that guard loses an option, and only a new value or the removal of the section finds it again. */
  lemma EditLoses(e: Entry, sid: string, base: Option<ServerSection>, opt: string, val: Option<Value>, i: int, o: string)
    requires e.Inv(sid)
    ensures LostAt(e.With(opt, val), base, o) <==>
              if o != opt || Dotted(opt) then LostAt(e, base, o)
              else (val.None? || val.value == Str("")) && (LostAt(e, base, o) || Forgets(e, base, opt, val))
    ensures LostAt(e.Merged(), base, o) <==> LostAt(e, base, o)
    ensures LostAt(Indexed(e, i), base, o) <==> LostAt(e, base, o) && o != ".index"
    ensures !LostAt(e.Removed(), base, o)
  {
  }

  /** The one step of a run that loses an option. */
  lemma StepLoses(st: State, srv: Server, act: Act, c: string, s: string, o: string)
    requires Inv(st) && Possible(st, act) && !LostAt(EntryAt(st, c, s), Lookup(srv, Id(c, s)), o)
    ensures LostAt(EntryAt(Do(st, act), c, s), Lookup(srv, Id(c, s)), o) <==>
            && act.Edit? && act.op.Set? && act.op.conf == c && act.op.sid == s && act.op.opt == o
            && Forgets(EntryAt(st, c, s), Lookup(srv, Id(c, s)), o, act.op.val)
  {
    hide Do, Lookup;
    var e, base := EntryAt(st, c, s), Lookup(srv, Id(c, s));
    DoEntry(st, act, c, s);
    assert e.Inv(s);
    match act
    case Edit(Set(conf, sid, opt, val)) => EditLoses(e, s, base, opt, val, 0, o);
    case Edit(op) => EditLoses(e, s, base, "", None, 0, o);
    case Move(conf, m) => EditLoses(e, s, base, "", None, Find(m, s), o);
  }

  // ---- What a save leaves on the server -----------------------------------------------------

  /** The server's section is the shown one. */
  predicate Holds(sec: Option<Section>, held: Option<ServerSection>) {
    && (sec.Some? <==> held.Some?)
    && (sec.Some? ==> Opt(sec.value, ".type") == Some(held.value.typ) && PlainOpts(sec.value) == held.value.opts)
  }

  ghost predicate NoLoss(e: Entry, base: Option<ServerSection>) { forall o :: !LostAt(e, base, o) }

  function AfterSave(st: State, id: Id, base: Option<ServerSection>): Option<ServerSection> {
    GroupEffect(st, Updates, id, GroupEffect(st, Creates, id, GroupEffect(st, Deletes, id, base)))
  }

  /** Deleting, then setting, on the server against overlaying, then deleting, in the store. */
  lemma OverlayAgrees(v: Section, c: Section, d: set<string>, b: Section)
    requires NoneDotted(c.Keys) && NoneDotted(d) && NoneDotted(b.Keys) && d !! c.Keys
    requires forall o :: o in v && !Dotted(o) && o !in c && o !in d ==> Opt(b, o) == Some(v[o])
    ensures PlainOpts(v + c - d) == b - d + c <==> forall o :: o in b ==> o in v || o in c || o in d
  {
    var shown, held := PlainOpts(v + c - d), b - d + c;
    forall o | o in shown ensures o in held && held[o] == shown[o] {}
    if forall o :: o in b ==> o in v || o in c || o in d {
      forall o | o in held ensures o in shown {}
    } else {
      var o :| o in b && !(o in v || o in c || o in d);
      assert o in held && o !in shown;
    }
  }

  lemma AfterSaveLoaded(st: State, id: Id, base: Option<ServerSection>)
    requires var e := EntryAt(st, id.conf, id.sid); e.created.None? && base.Some? && !e.Gone()
    ensures var e := EntryAt(st, id.conf, id.sid);
            AfterSave(st, id, base) == Some(base.value.(opts := base.value.opts - e.Deletions() + e.Changes()))
  {
    var b, d := base.value.opts, EntryAt(st, id.conf, id.sid).Deletions();
    assert b - {} == b && b - d + map[] == b - d;
  }

  lemma SavedSection(st: State, id: Id, base: Option<ServerSection>)
    requires var e := EntryAt(st, id.conf, id.sid); e.Inv(id.sid) && Follows(e, base)
    requires base.Some? ==> NoneDotted(base.value.opts.Keys)
    ensures Holds(Shown(st, id.conf, id.sid), AfterSave(st, id, base)) <==> NoLoss(EntryAt(st, id.conf, id.sid), base)
  {
    var e := EntryAt(st, id.conf, id.sid);
    if e.created.None? && e.loaded.Some? {
      if !e.Gone() {
        AfterSaveLoaded(st, id, base);
        OverlayAgrees(e.loaded.value, e.Changes(), e.Deletions(), base.value.opts);
        assert NoLoss(e, base) <==>
          forall o :: o in base.value.opts ==> o in e.loaded.value || o in e.Changes() || o in e.Deletions() by {
          if NoLoss(e, base) {
            forall o | o in base.value.opts ensures o in e.loaded.value || o in e.Changes() || o in e.Deletions() {
              assert !LostAt(e, base, o);
            }
          }
        }
      }
    }
  }

  /**
   * Save puts on the server exactly what the reads showed, section by section, if and only if no option
   * of the section was lost, whatever order the three groups of calls are enumerated in.
   */
  lemma SaveTheorem(st: State, srv: Server, ds: seq<Call>, cs: seq<Call>, us: seq<Call>, conf: string, sid: string)
    requires Inv(st) && Snapshot(st, srv) && ServerOk(srv) && AllNamed(st) && conf in st.values
    requires Enumerates(ds, st, Deletes) && Enumerates(cs, st, Creates) && Enumerates(us, st, Updates)
    ensures Holds(Shown(st, conf, sid), Lookup(Replay(srv, ds + cs + us), Id(conf, sid))) <==>
            NoLoss(EntryAt(st, conf, sid), Lookup(srv, Id(conf, sid)))
  {
    var id := Id(conf, sid);
    ReplayConcat(srv, ds + cs, us);
    ReplayConcat(srv, ds, cs);
    GroupReplay(srv, ds, st, Deletes, id);
    GroupReplay(Replay(srv, ds), cs, st, Creates, id);
    GroupReplay(Replay(Replay(srv, ds), cs), us, st, Updates, id);
    assert EntryAt(st, conf, sid).Inv(sid);
    SavedSection(st, id, Lookup(srv, id));
  }

  // ---- Unload and load ----------------------------------------------------------------------

  function Unload(st: State, pkgs: set<string>): State {
    st.(values := st.values - pkgs, creates := st.creates - pkgs,
        changes := st.changes - pkgs, deletes := st.deletes - pkgs)
  }

  function Load(st: State, responses: Table<Section>): State { st.(values := st.values + responses) }

  /** The packages a save fetches again: all that have a pending table. */
  function Touched(st: State): set<string> {
    st.deletes.Keys + st.creates.Keys + st.changes.Keys + st.reorder
  }

  /** The state when a save is over. */
  function Refetched(st: State, responses: Table<Section>): State {
    Load(Unload(st.(reorder := {}), Touched(st)), responses)
  }

  /** A response to `get` lists the server's sections; their position is the server's business. */
  ghost predicate Answers(srv: Server, conf: string, pkg: map<string, Section>) {
    forall s :: (s in pkg <==> Id(conf, s) in srv) &&
      (s in pkg ==> IsSection(pkg[s], s) && Holds(Some(pkg[s]), Lookup(srv, Id(conf, s))))
  }

  ghost predicate SameReads(st: State, st': State, conf: string, sid: string) {
    forall o :: !Dotted(o) || o == ".type" || o == ".name" ==> Read(st', conf, sid, o) == Read(st, conf, sid, o)
  }

  lemma HoldsSameReads(sec: Section, sec': Section, held: ServerSection, o: string)
    requires Holds(Some(sec), Some(held)) && Holds(Some(sec'), Some(held))
    requires !Dotted(o) || o == ".type"
    ensures Opt(sec, o) == Opt(sec', o)
  {
    if !Dotted(o) {
      assert o in sec <==> o in PlainOpts(sec);
      assert o in sec' <==> o in PlainOpts(sec');
    }
  }

  lemma ReloadedEntry(st: State, responses: Table<Section>, conf: string, sid: string)
    requires Inv(st) && responses.Keys == Touched(st)
    ensures EntryAt(Refetched(st, responses), conf, sid) ==
              if conf in responses then Entry(At(responses, conf, sid), None, None, None) else EntryAt(st, conf, sid)
  {
  }

  lemma FreshReads(e: Entry, sid: string, sec: Section, held: ServerSection)
    requires e.Inv(sid) && IsSection(sec, sid)
    requires Holds(e.Shown(), Some(held)) && Holds(Some(sec), Some(held))
    ensures forall o :: !Dotted(o) || o == ".type" || o == ".name" ==>
              Entry(Some(sec), None, None, None).Read(o) == e.Read(o)
  {
    ShownIsSection(e, sid);
    forall o | !Dotted(o) || o == ".type" || o == ".name"
      ensures Entry(Some(sec), None, None, None).Read(o) == e.Read(o)
    {
      ReadIsShown(e, sid, o);
      if o != ".name" { HoldsSameReads(e.Shown().value, sec, held, o); }
    }
  }

  /** After a reload the sections are the server's, so the reads are unchanged where the server holds them. */
  lemma ReloadShowsServer(st: State, srv: Server, responses: Table<Section>, conf: string, sid: string)
    requires Inv(st) && responses.Keys == Touched(st)
    requires forall c :: c in responses ==> Answers(srv, c, responses[c])
    requires Holds(Shown(st, conf, sid), Lookup(srv, Id(conf, sid)))
    ensures var st' := Refetched(st, responses);
            SameReads(st, st', conf, sid) && (Live(st', conf, sid) <==> Live(st, conf, sid))
  {
    ReloadedEntry(st, responses, conf, sid);
    if conf in responses {
      var e := EntryAt(st, conf, sid);
      assert e.Inv(sid);
      assert Answers(srv, conf, responses[conf]);
      if sid in responses[conf] {
        FreshReads(e, sid, responses[conf][sid], srv[Id(conf, sid)]);
      } else {
        forall o ensures e.Read(o) == None { ReadIsShown(e, sid, o); }
      }
    }
  }

  lemma ShownIsSection(e: Entry, sid: string)
    requires e.Inv(sid) && e.Shown().Some?
    ensures IsSection(e.Shown().value, sid)
  {
    assert Dotted(".name") && Dotted(".type") && Dotted(".index");
  }

  /** A package that was just loaded agrees with the server option by option. */
  lemma LoadIsPristine(st: State, srv: Server, conf: string, response: map<string, Section>)
    requires Inv(st) && Snapshot(st, srv) && Covered(st, srv) && conf !in st.values && Answers(srv, conf, response)
    ensures var st' := st.(values := st.values[conf := response]);
            && Snapshot(st', srv) && Covered(st', srv)
            && forall s :: s in response ==> Lookup(srv, Id(conf, s)).Some?
                                             && PlainOpts(response[s]) == srv[Id(conf, s)].opts
  {
    var st' := st.(values := st.values[conf := response]);
    forall c, s | c in st'.values
      ensures Follows(EntryAt(st', c, s), Lookup(srv, Id(c, s))) && Covers(EntryAt(st', c, s), Lookup(srv, Id(c, s)))
    {
      if c == conf {
        assert EntryAt(st, c, s).Inv(s);
        assert s in response ==> forall o :: o in response[s] && !Dotted(o) ==> o in PlainOpts(response[s]);
      } else {
        assert EntryAt(st', c, s) == EntryAt(st, c, s);
        assert Follows(EntryAt(st, c, s), Lookup(srv, Id(c, s))) && Covers(EntryAt(st, c, s), Lookup(srv, Id(c, s)));
      }
    }
  }

  /**
   * Saving and reloading leaves every read as it was, for every run of edits and moves that reads no section
   * as a whole while the deletion of one of its options is pending.
   */
  lemma SaveRoundTrip(st0: State, srv: Server, acts: seq<Act>,
                      ds: seq<Call>, cs: seq<Call>, us: seq<Call>, responses: Table<Section>,
                      conf: string, sid: string)
    requires Inv(st0) && Snapshot(st0, srv) && Covered(st0, srv) && ServerOk(srv)
    requires PossibleRun(st0, acts) && CarefulRun(st0, acts)
    requires var st := DoAll(st0, acts);
             && AllNamed(st)
             && Enumerates(ds, st, Deletes) && Enumerates(cs, st, Creates) && Enumerates(us, st, Updates)
             && responses.Keys == Touched(st)
             && forall c :: c in responses ==> Answers(Replay(srv, ds + cs + us), c, responses[c])
    requires conf in st0.values
    ensures var st := DoAll(st0, acts);
            var st' := Refetched(st, responses);
            SameReads(st, st', conf, sid) && (Live(st', conf, sid) <==> Live(st, conf, sid))
  {
    hide *;
    RunFollows(st0, srv, acts);
    SavedAndReloaded(DoAll(st0, acts), srv, ds, cs, us, responses, conf, sid);
  }

  lemma SavedAndReloaded(st: State, srv: Server, ds: seq<Call>, cs: seq<Call>, us: seq<Call>,
                         responses: Table<Section>, conf: string, sid: string)
    requires Inv(st) && Snapshot(st, srv) && Covered(st, srv) && ServerOk(srv) && AllNamed(st) && conf in st.values
    requires Enumerates(ds, st, Deletes) && Enumerates(cs, st, Creates) && Enumerates(us, st, Updates)
    requires responses.Keys == Touched(st)
    requires forall c :: c in responses ==> Answers(Replay(srv, ds + cs + us), c, responses[c])
    ensures var st' := Refetched(st, responses);
            SameReads(st, st', conf, sid) && (Live(st', conf, sid) <==> Live(st, conf, sid))
  {
    CoveredLosesNothing(st, srv, conf);
    assert NoLoss(EntryAt(st, conf, sid), Lookup(srv, Id(conf, sid)));
    hide *;
    SaveTheorem(st, srv, ds, cs, us, conf, sid);
    ReloadShowsServer(st, Replay(srv, ds + cs + us), responses, conf, sid);
  }

  // ---- Runs that delete no option ---------------------------------------------------------------

  ghost predicate NoneDeleted(st: State) { forall c, s {:trigger EntryAt(st, c, s)} :: EntryAt(st, c, s).Deletions() == {} }

  predicate DeletesNone(act: Act) {
    act.Edit? && act.op.Set? ==> act.op.val.Some? && act.op.val.value != Str("")
  }

  lemma QuietEntry(st: State, act: Act, c: string, s: string)
    requires EntryAt(st, c, s).Deletions() == {} && DeletesNone(act)
    ensures Acted(st, act, c, s).Deletions() == {}
  {
  }

  /** Runs that never unset an option are careful, whatever they read; so are those of the firewall operations. */
  lemma {:induction false} QuietIsCareful(st: State, acts: seq<Act>)
    requires Inv(st) && NoneDeleted(st) && PossibleRun(st, acts) && forall i :: 0 <= i < |acts| ==> DeletesNone(acts[i])
    ensures CarefulRun(st, acts) && NoneDeleted(DoAll(st, acts))
    decreases acts
  {
    if acts != [] {
      hide Do, Acted, Possible, EntryAt, DeletesNone;
      var st' := Do(st, acts[0]);
      DoInv(st, acts[0]);
      forall c, s ensures EntryAt(st', c, s).Deletions() == {} {
        DoEntry(st, acts[0], c, s);
        assert EntryAt(st, c, s).Deletions() == {};
        QuietEntry(st, acts[0], c, s);
      }
      QuietIsCareful(st', acts[1..]);
    }
  }

  // ---- Runs that lose a deletion ----------------------------------------------------------------

  lemma StillAllLive(st: State, conf: string, m: seq<string>, sid: string, opt: string, st': State)
    requires Inv(st) && AllLive(st, conf, m) && st' == Step(st, Set(conf, sid, opt, None))
    ensures Inv(st') && AllLive(st', conf, m)
  {
    hide Step;
    StepInv(st, Set(conf, sid, opt, None));
    StepEntries(st, Set(conf, sid, opt, None), "", "");
    forall s ensures Listable(st', conf, "", s) <==> Listable(st, conf, "", s) {
      hide Entry.Shown, Entry.With;
      StepEntries(st, Set(conf, sid, opt, None), conf, s);
      assert EntryAt(st, conf, s).Inv(s);
      WithIsPlain(EntryAt(st, conf, s), s, opt, None);
    }
  }

  /** `mid` is the entry after the option was deleted and the section was read as a whole. */
  lemma LostByEdits(e: Entry, mid: Entry, base: Option<ServerSection>, opt: string, val: Value)
    requires e.loaded.Some? && e.created.None? && e.changed.None? && e.deleted.None? && opt in e.loaded.value
    requires Follows(e, base) && !Dotted(opt) && val != Str("")
    requires mid == e.With(opt, None).Merged() || exists i :: mid == Indexed(e.With(opt, None), i)
    ensures var e' := mid.With(opt, Some(val)).With(opt, None); e'.Read(opt) == None && LostAt(e', base, opt)
  {
    var e1 := e.With(opt, None);
    assert e.Deletions() + {opt} == {opt};
    assert e1 == e.(deleted := Some(Options({opt})));
    assert opt !in mid.loaded.value && mid.deleted == e1.deleted && mid.changed.None? && mid.created.None?;
    var e3 := mid.With(opt, Some(val));
    assert e3 == mid.(deleted := None, changed := Some(map[opt := val]));
    assert e3.With(opt, None) == mid.(deleted := None);
  }

  /**
   * With a whole-section read the promise fails: delete an option, read the section, set the option and
   * delete it again.  All reads say that the option is gone, but no call deletes it on the server.
   */
  lemma WholeReadLosesDelete(st: State, srv: Server, conf: string, sid: string, opt: string, val: Value)
    requires Inv(st) && Snapshot(st, srv) && !Dotted(opt) && val != Str("")
    requires var e := EntryAt(st, conf, sid);
             e.loaded.Some? && e.created.None? && e.changed.None? && e.deleted.None? && opt in e.loaded.value
    ensures var acts := [Edit(Set(conf, sid, opt, None)), Edit(ReadSection(conf, sid)),
                         Edit(Set(conf, sid, opt, Some(val))), Edit(Set(conf, sid, opt, None))];
            && PossibleRun(st, acts) && Read(DoAll(st, acts), conf, sid, opt) == None
            && LostAt(EntryAt(DoAll(st, acts), conf, sid), Lookup(srv, Id(conf, sid)), opt)
  {
    var a, b, c := Edit(Set(conf, sid, opt, None)), Edit(ReadSection(conf, sid)), Edit(Set(conf, sid, opt, Some(val)));
    DoFour(st, a, b, c, a);
    assert conf in st.values;
    var e := EntryAt(st, conf, sid);
    LostByEdits(e, e.With(opt, None).Merged(), Lookup(srv, Id(conf, sid)), opt, val);
  }

  /** A move of the package between the edits loses the deletion in the same way. */
  lemma MoveLosesDelete(st: State, srv: Server, conf: string, m: seq<string>, sid: string, opt: string, val: Value)
    requires Inv(st) && Snapshot(st, srv) && AllLive(st, conf, m) && !Dotted(opt) && val != Str("")
    requires var e := EntryAt(st, conf, sid);
             e.loaded.Some? && e.created.None? && e.changed.None? && e.deleted.None? && opt in e.loaded.value
    ensures var acts := [Edit(Set(conf, sid, opt, None)), Move(conf, m),
                         Edit(Set(conf, sid, opt, Some(val))), Edit(Set(conf, sid, opt, None))];
            && PossibleRun(st, acts) && Read(DoAll(st, acts), conf, sid, opt) == None
            && LostAt(EntryAt(DoAll(st, acts), conf, sid), Lookup(srv, Id(conf, sid)), opt)
  {
    var a, b, c := Edit(Set(conf, sid, opt, None)), Move(conf, m), Edit(Set(conf, sid, opt, Some(val)));
    DoFour(st, a, b, c, a);
    var st1 := SetOption(st, conf, sid, opt, None);
    StillAllLive(st, conf, m, sid, opt, st1);
    MovedEntry(st1, conf, m, conf, sid);
    var e := EntryAt(st, conf, sid);
    assert Listable(st, conf, "", sid) && conf in st.values;
    LostByEdits(e, Indexed(e.With(opt, None), Find(m, sid)), Lookup(srv, Id(conf, sid)), opt, val);
  }
}
