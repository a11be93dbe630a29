/**
 * The firewall package of the UCI store, seen as a plain table of sections.  `Ready` says that a store shows exactly
 * the table; each method of the class calls the store once and says what happens to the table.
 */
module FirewallRows {
  import opened Common
  import opened UciState
  import opened UciRuns
  import opened UciOrder
  import opened UciSave
  import opened UciStore

  const CONF := "firewall"

  /** The live sections by name. */
  type Rows = map<string, Section>

  function Get(rows: Rows, s: string, opt: string): Option<Value> { if s in rows then Opt(rows[s], opt) else None }

  predicate HasType(rows: Rows, s: string, typ: string) { Get(rows, s, ".type") == Some(Str(typ)) }

  /** The deletion of the option is pending and the snapshot still has it: listings show the old value. */
  predicate Stale(e: Entry, opt: string) {
    e.created.None? && e.loaded.Some? && opt in e.Deletions() && opt in e.loaded.value
  }

  predicate NoneStale(e: Entry) { !Stale(e, "name") && !Stale(e, "src") && !Stale(e, "dest") }

  /** Listings show what reads show of the options that zones and references are made of. */
  ghost predicate NoStale(st: State) { forall s {:trigger EntryAt(st, CONF, s)} :: NoneStale(EntryAt(st, CONF, s)) }

  /** A listed value is the one that is read exactly when it is not stale. */
  lemma ListedIsRead(e: Entry, sid: string, opt: string, v: Value)
    requires e.Inv(sid) && e.Shown().Some?
    ensures Opt(Listed(e), opt) == e.Read(opt) <==> !Stale(e, opt)
    ensures (Opt(Listed(e), opt) == Some(v) <==> e.Read(opt) == Some(v)) <==> !(Stale(e, opt) && e.loaded.value[opt] == v)
    ensures e.Read(opt) == Opt(e.Shown().value, opt)
  {
    ReadIsShown(e, sid, opt);
  }

  ghost predicate Shows(st: State, rows: Rows) {
    forall s {:trigger Shown(st, CONF, s)} :: Shown(st, CONF, s) == if s in rows then Some(rows[s]) else None
  }

  /** References start with an at sign, section names do not. */
  predicate IsPlain(s: string) { s == "" || s[0] != '@' }

  predicate PlainName(s: string) { s != "" && IsPlain(s) }

  /** The package is loaded; no section is named like a reference; `taken` are the names not free for a new one. */
  ghost predicate Ready(st: State, rows: Rows, taken: set<string>) {
    && Inv(st) && CONF in st.values && NoStale(st) && Shows(st, rows)
    && (forall s :: s in rows ==> PlainName(s))
    && forall s {:trigger EntryAt(st, CONF, s)} ::
         EntryAt(st, CONF, s).created.Some? || EntryAt(st, CONF, s).loaded.Some? ==> s in taken
  }

  /** One listed section and the row s it was copied from. */
  ghost predicate IsCopy(rows: Rows, typ: string, sec: Section, s: string) {
    && NameOf(sec) == s && s in rows && PlainName(s) && (typ == "" || HasType(rows, s, typ))
    && Opt(sec, ".type") == Get(rows, s, ".type") && Opt(sec, "name") == Get(rows, s, "name")
    && Opt(sec, "src") == Get(rows, s, "src") && Opt(sec, "dest") == Get(rows, s, "dest")
  }

  /** The sections of a type and their names, each once. */
  ghost predicate Lists(rows: Rows, typ: string, sa: seq<Section>, names: seq<string>) {
    && |names| == |sa| && DistinctStrings(names)
    && (forall i {:trigger IsCopy(rows, typ, sa[i], names[i])} :: 0 <= i < |sa| ==> IsCopy(rows, typ, sa[i], names[i]))
    && forall s :: s in names <==> s in rows && (typ == "" || HasType(rows, s, typ))
  }

  lemma ListingIsCopy(st: State, rows: Rows, taken: set<string>, typ: string, sa: seq<Section>, i: nat)
    requires Ready(st, rows, taken) && IsListing(st, CONF, typ, sa) && i < |sa|
    ensures IsCopy(rows, typ, sa[i], NamesOf(sa)[i])
  {
    var s := NameOf(sa[i]);
    assert NamesOf(sa)[i] == s && s in NamesOf(sa) && Listable(st, CONF, typ, s);
    var e := EntryAt(st, CONF, s);
    assert e.Inv(s) && NoneStale(e) && Shown(st, CONF, s) == Some(rows[s]);
    CopyIff(e, rows, typ, s, sa[i], i);
  }

  lemma CopyIff(e: Entry, rows: Rows, typ: string, s: string, sec: Section, i: int)
    requires e.Inv(s) && s in rows && e.Shown() == Some(rows[s]) && PlainName(s)
    requires sec == Listed(e)[".index" := Num(i)] && (typ == "" || Opt(Listed(e), ".type") == Some(Str(typ)))
    ensures IsCopy(rows, typ, sec, s) <==> NoneStale(e)
  {
    assert Dotted(".type") && Dotted(".name");
    ListedIsSection(e, s);
    ListedIsRead(e, s, "name", Str(""));
    ListedIsRead(e, s, "src", Str(""));
    ListedIsRead(e, s, "dest", Str(""));
  }

  /** Listings of the package agree with what is read exactly when no old value is pending its deletion. */
  lemma ListingIsCurrent(st: State, rows: Rows, sa: seq<Section>)
    requires Inv(st) && CONF in st.values && Shows(st, rows) && (forall s :: s in rows ==> PlainName(s))
    requires IsListing(st, CONF, "", sa)
    ensures (forall i {:trigger sa[i]} :: 0 <= i < |sa| ==> IsCopy(rows, "", sa[i], NameOf(sa[i]))) <==> NoStale(st)
  {
    forall i | 0 <= i < |sa|
      ensures IsCopy(rows, "", sa[i], NameOf(sa[i])) <==> NoneStale(EntryAt(st, CONF, NameOf(sa[i])))
    {
      ListedAt(st, rows, sa, i);
      CopyIff(EntryAt(st, CONF, NameOf(sa[i])), rows, "", NameOf(sa[i]), sa[i], i);
    }
    forall s | !NoneStale(EntryAt(st, CONF, s)) ensures exists i :: 0 <= i < |sa| && NameOf(sa[i]) == s {
      var i := IsListed(st, rows, sa, s);
    }
  }

  /** What a scan of a listing finds under an option, against what is read. */
  lemma ScanReads(st: State, rows: Rows, sa: seq<Section>, opt: string, v: Value)
    requires Inv(st) && CONF in st.values && Shows(st, rows) && IsListing(st, CONF, "", sa) && opt != ".index"
    ensures (forall i {:trigger sa[i]} :: 0 <= i < |sa| ==>
               (Opt(sa[i], opt) == Some(v) <==> Get(rows, NameOf(sa[i]), opt) == Some(v))) <==>
            forall s {:trigger EntryAt(st, CONF, s)} ::
              !(Stale(EntryAt(st, CONF, s), opt) && EntryAt(st, CONF, s).loaded.value[opt] == v)
  {
    forall i | 0 <= i < |sa|
      ensures var e := EntryAt(st, CONF, NameOf(sa[i]));
              (Opt(sa[i], opt) == Some(v) <==> Get(rows, NameOf(sa[i]), opt) == Some(v)) <==>
              !(Stale(e, opt) && e.loaded.value[opt] == v)
    {
      ListedAt(st, rows, sa, i);
      ListedIsRead(EntryAt(st, CONF, NameOf(sa[i])), NameOf(sa[i]), opt, v);
    }
    forall s | Stale(EntryAt(st, CONF, s), opt) ensures exists i :: 0 <= i < |sa| && NameOf(sa[i]) == s {
      var i := IsListed(st, rows, sa, s);
    }
  }

  lemma ListedAt(st: State, rows: Rows, sa: seq<Section>, i: nat)
    requires Inv(st) && Shows(st, rows) && IsListing(st, CONF, "", sa) && i < |sa|
    ensures var s := NameOf(sa[i]);
            var e := EntryAt(st, CONF, s);
            s in rows && e.Inv(s) && e.Shown() == Some(rows[s]) && sa[i] == Listed(e)[".index" := Num(i)]
  {
    var s := NameOf(sa[i]);
    assert NamesOf(sa)[i] == s && s in NamesOf(sa) && Listable(st, CONF, "", s);
    assert EntryAt(st, CONF, s).Inv(s) && Shown(st, CONF, s) == Some(rows[s]);
  }

  lemma IsListed(st: State, rows: Rows, sa: seq<Section>, s: string) returns (i: nat)
    requires Inv(st) && CONF in st.values && Shows(st, rows) && IsListing(st, CONF, "", sa)
    requires s in rows || (EntryAt(st, CONF, s).loaded.Some? && !EntryAt(st, CONF, s).Gone())
    ensures i < |sa| && NameOf(sa[i]) == s && s in rows
  {
    assert EntryAt(st, CONF, s).Inv(s) && Live(st, CONF, s) && Listable(st, CONF, "", s);
    assert Shown(st, CONF, s) == if s in rows then Some(rows[s]) else None;
    i :| 0 <= i < |sa| && NamesOf(sa)[i] == s;
  }

  lemma ListingLists(st: State, rows: Rows, taken: set<string>, typ: string, sa: seq<Section>)
    requires Ready(st, rows, taken) && IsListing(st, CONF, typ, sa)
    ensures Lists(rows, typ, sa, NamesOf(sa))
  {
    forall i | 0 <= i < |sa| ensures IsCopy(rows, typ, sa[i], NamesOf(sa)[i]) {
      ListingIsCopy(st, rows, taken, typ, sa, i);
    }
    forall s ensures s in NamesOf(sa) <==> s in rows && (typ == "" || HasType(rows, s, typ)) {
      assert EntryAt(st, CONF, s).Inv(s) && (s in rows <==> Shown(st, CONF, s).Some?);
      if s in rows {
        assert Dotted(".type") && Shown(st, CONF, s) == Some(rows[s]);
        ListedIsSection(EntryAt(st, CONF, s), s);
      }
      assert s in NamesOf(sa) <==> Listable(st, CONF, typ, s);
    }
  }

  /** The table after an edit of the firewall package. */
  ghost function RowsAfter(rows: Rows, op: Op, newidx: nat): Rows {
    match op
    case Add(_, typ, sid, named) => rows[sid := NewSection(typ, sid, named, 1000 + newidx)]
    case Remove(_, sid) => rows - {sid}
    case Set(_, sid, opt, val) =>
      if sid in rows && !Dotted(opt) && val.Some? then rows[sid := rows[sid][opt := val.value]] else rows
    case ReadSection(_, _) => rows
  }

  /** The edited entry shows the edited row, and nothing in it became stale. */
  lemma SteppedRow(e: Entry, op: Op, newidx: nat, rows: Rows)
    requires e.Inv(op.sid) && NoneStale(e) && (op.Add? ==> e.Shown().None?)
    requires op.Set? ==> op.val.Some? && op.val.value != Str("")
    requires e.Shown() == if op.sid in rows then Some(rows[op.sid]) else None
    ensures var e', rows' := Stepped(e, op, newidx), RowsAfter(rows, op, newidx);
            && NoneStale(e') && e'.Shown() == (if op.sid in rows' then Some(rows'[op.sid]) else None)
            && (e'.loaded.Some? ==> e.loaded.Some?) && (e'.created.Some? ==> e.created.Some? || op.Add?)
  {
    match op
    case Add(_, _, sid, _) =>
    case Remove(_, sid) => RemovedIsPlain(e, sid);
    case Set(_, sid, opt, val) => WithIsPlain(e, sid, opt, val);
    case ReadSection(_, sid) => MergedShowsTheSame(e, sid);
  }

  lemma OtherRow(rows: Rows, op: Op, newidx: nat, s: string)
    requires s != op.sid
    ensures var rows' := RowsAfter(rows, op, newidx); (s in rows' <==> s in rows) && (s in rows ==> rows'[s] == rows[s])
  {
  }

  lemma StepRow(st: State, rows: Rows, taken: set<string>, op: Op, s: string)
    requires Ready(st, rows, taken) && Allowed(st, op) && op.conf == CONF
    requires op.Set? ==> op.val.Some? && op.val.value != Str("")
    ensures var e', rows' := EntryAt(Step(st, op), CONF, s), RowsAfter(rows, op, st.newidx);
            && NoneStale(e')
            && e'.Shown() == (if s in rows' then Some(rows'[s]) else None)
            && (e'.created.Some? || e'.loaded.Some? ==> s in taken || (op.Add? && s == op.sid))
  {
    hide Step, Stepped, RowsAfter, Entry.Shown, Stale;
    var e := EntryAt(st, CONF, s);
    StepEntries(st, op, CONF, s);
    assert e.Inv(s) && NoneStale(e);
    assert Shown(st, CONF, s) == if s in rows then Some(rows[s]) else None;
    if s == op.sid { SteppedRow(e, op, st.newidx, rows); } else { OtherRow(rows, op, st.newidx, s); }
  }

  lemma StepReady(st: State, rows: Rows, taken: set<string>, op: Op)
    requires Ready(st, rows, taken) && Allowed(st, op) && op.conf == CONF
    requires op.Add? ==> PlainName(op.sid)
    requires op.Set? ==> op.val.Some? && op.val.value != Str("")
    ensures Ready(Step(st, op), RowsAfter(rows, op, st.newidx), if op.Add? then taken + {op.sid} else taken)
  {
    StepInv(st, op);
    StepEntries(st, op, CONF, op.sid);
    forall s { StepRow(st, rows, taken, op, s); }
  }

  lemma NotTaken(st: State, rows: Rows, taken: set<string>, s: string)
    requires Ready(st, rows, taken) && s !in taken
    ensures s !in rows && !Live(st, CONF, s)
  {
    assert EntryAt(st, CONF, s).Shown() == Shown(st, CONF, s) == None;
  }

  class Rules {
    const uci: Uci
    ghost var rows: Rows
    ghost var taken: set<string>

    ghost predicate Valid() reads this, uci { Ready(uci.state, rows, taken) }

    constructor (uci: Uci, ghost rows: Rows, ghost taken: set<string>)
      requires Ready(uci.state, rows, taken)
      ensures Valid() && this.uci == uci && this.rows == rows && this.taken == taken
    {
      this.uci, this.rows, this.taken := uci, rows, taken;
    }

    method Sections(typ: string) returns (sa: seq<Section>, ghost names: seq<string>)
      requires Valid()
      ensures Lists(rows, typ, sa, names)
    {
      sa := uci.Sections(CONF, typ);
      names := NamesOf(sa);
      ListingLists(uci.state, rows, taken, typ, sa);
    }

    method Option(s: string, opt: string) returns (r: Option<Value>)
      requires Valid() && PlainName(s)
      ensures r == Get(rows, s, opt)
    {
      ghost var target;
      r, target := uci.GetOption(CONF, s, opt);
      assert EntryAt(uci.state, CONF, s).Inv(s) && Shown(uci.state, CONF, s) == if s in rows then Some(rows[s]) else None;
      ReadIsShown(EntryAt(uci.state, CONF, s), s, opt);
    }

    /** A whole-section read; it writes pending edits into the snapshot, but the table stays. */
    method Section(ref: string) returns (r: Option<Section>)
      requires Valid()
      modifies this, uci
      ensures Valid() && rows == old(rows) && taken == old(taken)
      ensures r.Some? ==> NameOf(r.value) in rows && rows[NameOf(r.value)] == r.value && PlainName(NameOf(r.value))
      ensures IsPlain(ref) ==> r == (if ref in rows then Some(rows[ref]) else None)
      ensures IsPlain(ref) && r.Some? ==> NameOf(r.value) == ref
    {
      ghost var target;
      ghost var st := uci.state;
      r, target := uci.GetSection(CONF, ref);
      if target.Some? {
        StepReady(st, rows, taken, Op.ReadSection(CONF, target.value));
        assert EntryAt(st, CONF, target.value).Inv(target.value) && Shows(st, rows);
        assert Shown(st, CONF, target.value) == if target.value in rows then Some(rows[target.value]) else None;
        if r.Some? { ShownIsSection(EntryAt(st, CONF, target.value), target.value); }
      }
    }

    method Remove(s: string)
      requires Valid()
      modifies this, uci
      ensures Valid() && rows == old(rows) - {s} && taken == old(taken)
    {
      StepReady(uci.state, rows, taken, Op.Remove(CONF, s));
      uci.RemoveSection(CONF, s);
      rows := rows - {s};
    }

    method Put(s: string, opt: string, text: string)
      requires Valid() && s in rows && !Dotted(opt) && text != ""
      modifies this, uci
      ensures Valid() && rows == old(rows)[s := old(rows)[s][opt := Str(text)]] && taken == old(taken)
    {
      StepReady(uci.state, rows, taken, Op.Set(CONF, s, opt, Some(Str(text))));
      ghost var target := uci.SetOption(CONF, s, opt, Some(Str(text)));
      rows := rows[s := rows[s][opt := Str(text)]];
    }

    /** Adds an anonymous section under the free name that was chosen for it. */
    method Add(typ: string, chosen: string) returns (ghost index: int)
      requires Valid() && chosen !in taken && PlainName(chosen)
      modifies this, uci
      ensures Valid() && rows == old(rows)[chosen := NewSection(typ, chosen, false, index)]
      ensures chosen !in old(rows) && taken == old(taken) + {chosen}
    {
      index := 1000 + uci.state.newidx;
      NotTaken(uci.state, rows, taken, chosen);
      StepReady(uci.state, rows, taken, Op.Add(CONF, typ, chosen, false));
      var sid := uci.AddSection(CONF, typ, "", chosen);
      rows := rows[chosen := NewSection(typ, chosen, false, index)];
      taken := taken + {chosen};
    }
  }
}
