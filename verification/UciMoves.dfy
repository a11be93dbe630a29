/** Runs of edits and moves, compared with a plain table of sections. */
module UciMoves {
  import opened Common
  import opened UciState
  import opened UciRuns
  import opened UciOrder

  /** One edit, or a move that leaves the live sections of a package in the order m. */
  datatype Act = Edit(op: Op) | Move(conf: string, m: seq<string>)

  ghost predicate Possible(st: State, act: Act) {
    match act
    case Edit(op) => Allowed(st, op)
    case Move(conf, m) => m != [] && AllLive(st, conf, m)
  }

  function Do(st: State, act: Act): State {
    match act
    case Edit(op) => Step(st, op)
    case Move(conf, m) => Moved(st, conf, m)
  }

  function Moved(st: State, conf: string, m: seq<string>): State {
    Renumber(st, conf, m, |m|).(reorder := st.reorder + {conf})
  }

  ghost predicate PossibleRun(st: State, acts: seq<Act>)
    decreases acts
  {
    acts == [] || (Possible(st, acts[0]) && PossibleRun(Do(st, acts[0]), acts[1..]))
  }

  function DoAll(st: State, acts: seq<Act>): State
    decreases acts
  {
    if acts == [] then st else DoAll(Do(st, acts[0]), acts[1..])
  }

  /** The plain table after a move: the sections of the package carry their positions as indexes. */
  function PlainMoved(p: Plain, conf: string, m: seq<string>): Plain {
    p.(rows := map id | id in p.rows ::
                 if id.conf == conf && id.sid in m then p.rows[id][".index" := Num(Find(m, id.sid))] else p.rows[id])
  }

  function PlainDo(p: Plain, act: Act): Plain {
    match act
    case Edit(op) => PlainStep(p, op)
    case Move(conf, m) => PlainMoved(p, conf, m)
  }

  function PlainDoAll(p: Plain, acts: seq<Act>): Plain
    decreases acts
  {
    if acts == [] then p else PlainDoAll(PlainDo(p, acts[0]), acts[1..])
  }

  lemma MovedEntry(st: State, conf: string, m: seq<string>, c: string, s: string)
    requires AllLive(st, conf, m)
    ensures EntryAt(Moved(st, conf, m), c, s) ==
              if c == conf && s in m then Indexed(EntryAt(st, c, s), Find(m, s)) else EntryAt(st, c, s)
    ensures c == conf && s in m ==> Live(st, c, s)
  {
    hide Indexed, Find, Shown;
    assert m[..|m|] == m;
    RenumberEntries(st, conf, m, |m|, c, s);
    assert c == conf && s in m ==> Listable(st, conf, "", s);
  }

  lemma MovedShows(st: State, conf: string, m: seq<string>, c: string, s: string)
    requires Inv(st) && AllLive(st, conf, m)
    ensures var e, e' := EntryAt(st, c, s), EntryAt(Moved(st, conf, m), c, s);
            && e'.Inv(s) && (e'.created.Some? <==> e.created.Some?)
            && (c == conf && s in m ==> e.Shown().Some?)
            && e'.Shown() == if c == conf && s in m then Some(e.Shown().value[".index" := Num(Find(m, s))]) else e.Shown()
  {
    hide Moved, Find;
    MovedEntry(st, conf, m, c, s);
    assert EntryAt(st, c, s).Inv(s);
    if c == conf && s in m { IndexedShows(EntryAt(st, c, s), s, Find(m, s)); }
  }

  lemma MovedPackages(st: State, conf: string, m: seq<string>)
    requires AllLive(st, conf, m)
    ensures Moved(st, conf, m).values.Keys == st.values.Keys && Moved(st, conf, m).newidx == st.newidx
    ensures Moved(st, conf, m).reorder == st.reorder + {conf}
  {
    assert m != [] ==> m[0] in m && Listable(st, conf, "", m[0]);
    RenumberPackages(st, conf, m, |m|);
    RenumberFrame(st, conf, m, |m|);
  }

  /** Every edit and every move keeps the invariant of the store, and loads or unloads no package. */
  lemma DoInv(st: State, act: Act)
    requires Inv(st) && Possible(st, act)
    ensures Inv(Do(st, act)) && Do(st, act).values.Keys == st.values.Keys
  {
    match act
    case Edit(op) =>
      StepInv(st, op);
      StepEntries(st, op, "", "");
    case Move(conf, m) =>
      MovedPackages(st, conf, m);
      forall c, s ensures EntryAt(Moved(st, conf, m), c, s).Inv(s) { MovedShows(st, conf, m, c, s); }
  }

  lemma MoveRefines(st: State, p: Plain, conf: string, m: seq<string>)
    requires Inv(st) && Matches(st, p) && AllLive(st, conf, m)
    ensures Matches(Moved(st, conf, m), PlainMoved(p, conf, m))
  {
    var st', p' := Moved(st, conf, m), PlainMoved(p, conf, m);
    MovedPackages(st, conf, m);
    forall c, s ensures MatchesAt(EntryAt(st', c, s), p', Id(c, s)) {
      MovedShows(st, conf, m, c, s);
      assert MatchesAt(EntryAt(st, c, s), p, Id(c, s));
    }
  }

  /** Every run of edits and moves shows what the plain table shows after the same run. */
  lemma {:induction false} RunRefines(st: State, p: Plain, acts: seq<Act>)
    requires Inv(st) && Matches(st, p) && PossibleRun(st, acts)
    ensures Inv(DoAll(st, acts)) && Matches(DoAll(st, acts), PlainDoAll(p, acts))
    ensures DoAll(st, acts).values.Keys == st.values.Keys
    decreases acts
  {
    if acts != [] {
      DoInv(st, acts[0]);
      match acts[0] {
        case Edit(op) => StepRefines(st, p, op);
        case Move(conf, m) => MoveRefines(st, p, conf, m);
      }
      RunRefines(Do(st, acts[0]), PlainDo(p, acts[0]), acts[1..]);
    }
  }

  /** The packages that a run marks for reordering are exactly those with a move. */
  lemma {:induction false} RunMarks(st: State, acts: seq<Act>, c: string)
    requires Inv(st) && PossibleRun(st, acts)
    ensures c in DoAll(st, acts).reorder <==> c in st.reorder || exists i :: 0 <= i < |acts| && acts[i].Move? && acts[i].conf == c
    decreases acts
  {
    if acts == [] {
    } else {
      hide Inv, Possible, Moved, Step;
      DoInv(st, acts[0]);
      DoMarks(st, acts[0]);
      RunMarks(Do(st, acts[0]), acts[1..], c);
      assert acts == [acts[0]] + acts[1..];
      assert (exists i :: 0 <= i < |acts| && acts[i].Move? && acts[i].conf == c) <==>
             (acts[0].Move? && acts[0].conf == c) ||
             exists i :: 0 <= i < |acts[1..]| && acts[1..][i].Move? && acts[1..][i].conf == c by {
        if i :| 0 <= i < |acts[1..]| && acts[1..][i].Move? && acts[1..][i].conf == c { assert acts[i + 1] == acts[1..][i]; }
        if i :| 0 <= i < |acts| && acts[i].Move? && acts[i].conf == c { assert i > 0 ==> acts[1..][i - 1] == acts[i]; }
      }
    }
  }

  lemma DoMarks(st: State, act: Act)
    requires Possible(st, act)
    ensures Do(st, act).reorder == st.reorder + if act.Move? then {act.conf} else {}
  {
    if act.Move? { MovedPackages(st, act.conf, act.m); } else { StepMarks(st, act.op); }
  }

  lemma StepMarks(st: State, op: Op)
    ensures Step(st, op).reorder == st.reorder
  {
  }

  lemma DoFour(st: State, a: Act, b: Act, c: Act, d: Act)
    ensures DoAll(st, [a, b, c, d]) == Do(Do(Do(Do(st, a), b), c), d)
    ensures PossibleRun(st, [a, b, c, d]) <==>
            Possible(st, a) && Possible(Do(st, a), b) && Possible(Do(Do(st, a), b), c) && Possible(Do(Do(Do(st, a), b), c), d)
  {
    DoFirst(st, a, [b, c, d]);
    DoFirst(Do(st, a), b, [c, d]);
    DoFirst(Do(Do(st, a), b), c, [d]);
    DoFirst(Do(Do(Do(st, a), b), c), d, []);
  }

  lemma DoFirst(st: State, a: Act, rest: seq<Act>)
    ensures DoAll(st, [a] + rest) == DoAll(Do(st, a), rest)
    ensures PossibleRun(st, [a] + rest) <==> Possible(st, a) && PossibleRun(Do(st, a), rest)
  {
    assert ([a] + rest)[1..] == rest;
  }
}
