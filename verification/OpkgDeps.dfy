/** The dependency walk of the package manager: what it records, what it plans to install and what it reports. */
module OpkgDeps {
  import opened Common
  import opened OpkgVersion
  import opened OpkgIndex
  import opened Strings

  datatype Database = Database(installed: Index, available: Index)

  // ---- Dependency texts ---------------------------------------------------------------------

  datatype Constraint = Constraint(op: string, ver: string)

  datatype Spec = Spec(name: string, constraint: Option<Constraint>)

  /** The shortest non-empty text before a closing parenthesis, on one line. */
  function UpToParen(s: string, k: nat): Option<string>
    requires k <= |s|
    decreases |s| - k
  {
    if k == |s| then None
    else if k > 0 && s[k] == ')' then Some(s[..k])
    else if IsLineEnd(s[k]) then None
    else UpToParen(s, k + 1)
  }

  const OPERATORS := ["<=", ">=", "<<", ">>", "<", ">", "="]

  /** The first operator, in the order of the alternatives, that leaves a version behind it. */
  function MatchOperator(s: string, i: nat): Option<Constraint>
    requires i <= |OPERATORS|
    decreases |OPERATORS| - i
  {
    if i == |OPERATORS| then None
    else
      var op := OPERATORS[i];
      var ver := if op <= s then UpToParen(s[|op|..], 0) else None;
      if ver.Some? then Some(Constraint(op, Trim(ver.value))) else MatchOperator(s, i + 1)
  }

  /** White space, an opening parenthesis, a constraint. */
  function MatchConstraint(s: string): Option<Constraint> {
    var t := TrimLeft(s);
    if |t| < |s| && t != "" && t[0] == '(' then MatchOperator(t[1..], 0) else None
  }

  /** "name (op version)" with the shortest possible name; anything else is all name. */
  function ParseFrom(s: string, i: nat): Spec
    requires i <= |s|
    decreases |s| - i
  {
    if i == |s| || (i > 0 && IsLineEnd(s[i - 1])) then Spec(Trim(s), None)
    else if i > 0 && MatchConstraint(s[i..]).Some? then Spec(Trim(s[..i]), MatchConstraint(s[i..]))
    else ParseFrom(s, i + 1)
  }

  function ParseDep(s: string): Spec { ParseFrom(s, 0) }

  ghost predicate IsVersionText(v: string) {
    v != "" && v[0] !in ['<', '>', '='] && forall c :: c in v ==> c != ')' && !IsLineEnd(c)
  }

  lemma {:induction false} UpToParenFinds(v: string, k: nat)
    requires IsVersionText(v) && k <= |v|
    ensures UpToParen(v + ")", k) == Some(v)
    decreases |v| - k
  {
    if k == |v| {
      assert (v + ")")[..k] == v;
    } else {
      assert (v + ")")[k] == v[k] && v[k] in v;
      UpToParenFinds(v, k + 1);
    }
  }

  lemma {:induction false} MatchOperatorFinds(i: nat, v: string, k: nat)
    requires IsVersionText(v) && k <= i < |OPERATORS|
    ensures MatchOperator(OPERATORS[i] + v + ")", k) == Some(Constraint(OPERATORS[i], Trim(v)))
    decreases i - k
  {
    var s := OPERATORS[i] + v + ")";
    if k == i {
      assert s[|OPERATORS[i]|..] == v + ")";
      UpToParenFinds(v, 0);
    } else {
      assert s[0] == OPERATORS[i][0] && (|OPERATORS[i]| == 1 ==> s[1] == v[0]) && (|OPERATORS[i]| == 2 ==> s[1] == OPERATORS[i][1]);
      assert !(OPERATORS[k] <= s);
      MatchOperatorFinds(i, v, k + 1);
    }
  }

  lemma TrimPlain(s: string)
    requires forall c :: c in s ==> !IsSpace(c)
    ensures Trim(s) == s
  {
    if s != "" { assert s[0] in s && s[|s| - 1] in s; }
  }

  /** "name (op version)" is read back as the name, the operator and the trimmed version. */
  lemma ParseDepFinds(name: string, i: nat, v: string)
    requires name != "" && (forall c :: c in name ==> !IsSpace(c)) && i < |OPERATORS| && IsVersionText(v)
    ensures ParseDep(name + " (" + OPERATORS[i] + v + ")") == Spec(name, Some(Constraint(OPERATORS[i], Trim(v))))
  {
    var rest := OPERATORS[i] + v + ")";
    MatchOperatorFinds(i, v, 0);
    ParseFromFinds(name, rest, 0);
    assert name + " (" + rest == name + " (" + OPERATORS[i] + v + ")";
  }

  lemma {:induction false} ParseFromFinds(name: string, rest: string, i: nat)
    requires name != "" && (forall c :: c in name ==> !IsSpace(c)) && i <= |name| && MatchOperator(rest, 0).Some?
    ensures ParseFrom(name + " (" + rest, i) == Spec(name, MatchOperator(rest, 0))
    decreases |name| - i
  {
    hide MatchOperator;
    var s := name + " (" + rest;
    assert i > 0 ==> s[i - 1] == name[i - 1] && name[i - 1] in name;
    if i == |name| {
      assert s[..i] == name && s[i..] == [' '] + (['('] + rest);
      assert TrimLeft(['('] + rest) == ['('] + rest;
      TrimPlain(name);
    } else {
      assert s[i..][0] == name[i] && name[i] in name;
      ParseFromFinds(name, rest, i + 1);
    }
  }

  /** A text without a parenthesis is all name. */
  lemma PlainDep(s: string)
    requires '(' !in s
    ensures ParseDep(s) == Spec(Trim(s), None)
  {
    PlainFrom(s, 0);
  }

  lemma {:induction false} PlainFrom(s: string, i: nat)
    requires '(' !in s && i <= |s|
    ensures ParseFrom(s, i) == Spec(Trim(s), None)
    decreases |s| - i
  {
    if i < |s| {
      LeftIsPart(s[i..]);
      var t := TrimLeft(s[i..]);
      assert t != "" ==> t[0] in t && t[0] in s[i..] && t[0] in s;
      assert MatchConstraint(s[i..]).None?;
      PlainFrom(s, i + 1);
    }
  }

  lemma {:induction false} LeftIsPart(s: string)
    ensures forall c :: c in TrimLeft(s) ==> c in s
  {
    if s != "" && IsSpace(s[0]) { LeftIsPart(s[1..]); }
  }

  // ---- The graph ----------------------------------------------------------------------------

  /** Appends the names of the packages that are not in the list yet. */
  function AddNames(names: seq<string>, pkgs: seq<Package>): (r: seq<string>)
    ensures forall n :: n in r <==> n in names || exists k :: 0 <= k < |pkgs| && pkgs[k].name == n
    ensures names <= r && (Distinct(names) ==> Distinct(r))
    decreases pkgs
  {
    if pkgs == [] then names
    else
      var n := pkgs[0].name;
      var r := AddNames(if n in names then names else names + [n], pkgs[1..]);
      assert pkgs == [pkgs[0]] + pkgs[1..];
      r
  }

  /** The names of the packages that provide a dependency, installed ones first. */
  function ProviderNames(db: Database, dep: string): seq<string> {
    AddNames(AddNames([], ProvidersOf(db.installed, dep)), ProvidersOf(db.available, dep))
  }

  function Resolve(db: Database, name: string, dep: string): Package {
    if name in db.installed.pkgs then db.installed.pkgs[name]
    else if name in db.available.pkgs then db.available.pkgs[name]
    else Package(dep, "", false, false, [], [])
  }

  /** The names a list of dependency texts stands for; libc does not count. */
  ghost function DepNames(deps: seq<string>): set<string> {
    set d | d in deps && d != "libc" :: ParseDep(d).name
  }

  /** The names that the providers of a name depend on. */
  ghost predicate Needs(db: Database, dep: string, n: string) {
    exists p :: p in ProviderNames(db, dep) && n in DepNames(Resolve(db, p, dep).depends)
  }

  ghost predicate IsPath(db: Database, roots: set<string>, path: seq<string>) {
    path != [] && path[0] in roots && forall i :: 0 <= i < |path| - 1 ==> Needs(db, path[i], path[i + 1])
  }

  ghost predicate Reachable(db: Database, roots: set<string>, n: string) {
    exists path :: IsPath(db, roots, path) && path[|path| - 1] == n
  }

  lemma RootReachable(db: Database, roots: set<string>, n: string)
    requires n in roots
    ensures Reachable(db, roots, n)
  {
    assert IsPath(db, roots, [n]) && [n][|[n]| - 1] == n;
  }

  lemma ReachableStep(db: Database, roots: set<string>, dep: string, next: set<string>, n: string)
    requires dep in roots && (forall m :: m in next ==> Needs(db, dep, m)) && Reachable(db, next, n)
    ensures Reachable(db, roots, n)
  {
    hide Needs;
    var path :| IsPath(db, next, path) && path[|path| - 1] == n;
    var longer := [dep] + path;
    assert forall i :: 0 < i < |longer| ==> longer[i] == path[i - 1];
    assert IsPath(db, roots, longer) && longer[|longer| - 1] == n;
  }

  /** Names that contain the roots and all they need contain everything reachable. */
  lemma {:induction false} ClosedContains(db: Database, roots: set<string>, names: set<string>, path: seq<string>)
    requires roots <= names && forall n, m :: n in names && Needs(db, n, m) ==> m in names
    requires IsPath(db, roots, path)
    ensures path[|path| - 1] in names
    decreases |path|
  {
    if |path| > 1 {
      var front := path[..|path| - 1];
      assert IsPath(db, roots, front);
      ClosedContains(db, roots, names, front);
      assert Needs(db, path[|path| - 2], path[|path| - 1]);
    }
  }

  // ---- The walk -----------------------------------------------------------------------------

  datatype Dep = Dep(name: string, pkgs: seq<string>, constraint: Option<Constraint>)

  datatype Problem =
    | InstalledIncompatible(name: string, wanted: Constraint, have: string)
    | AvailableIncompatible(name: string, wanted: Constraint, have: string)
    | NotAvailable(name: string)

  /** A line of the rendered tree. */
  datatype Item = Item(name: string, subdeps: seq<Item>)

  class Info {
    var seen: map<string, Dep>
    var install: seq<Package>
    var errors: seq<Problem>

    constructor ()
      ensures seen == map[] && install == [] && errors == []
    {
      seen, install, errors := map[], [], [];
    }
  }

  predicate Meets(version: string, constraint: Option<Constraint>) {
    constraint.None? || Satisfied(version, constraint.value.ver, constraint.value.op)
  }

  /** A package is installed in a fitting version, or something fitting is in the plan for it. */
  ghost predicate Planned(db: Database, pkg: Package, constraint: Option<Constraint>, install: seq<Package>) {
    if pkg.installed then
      || Meets(pkg.version, constraint)
      || exists r :: r in install && r in ProvidersOf(db.available, pkg.name) && Meets(r.version, constraint)
    else !pkg.missing && pkg in install && Meets(pkg.version, constraint)
  }

  /** The first of the providers in a fitting version. */
  ghost predicate IsFirstFit(ps: seq<Package>, constraint: Constraint, r: Package) {
    exists k :: 0 <= k < |ps| && ps[k] == r && Meets(r.version, Some(constraint))
                && forall j :: 0 <= j < k ==> !Meets(ps[j].version, Some(constraint))
  }

  method FindReplacement(ps: seq<Package>, constraint: Constraint) returns (repl: Option<Package>)
    ensures repl.Some? ==> repl.value in ps && IsFirstFit(ps, constraint, repl.value)
    ensures repl.None? ==> forall p :: p in ps ==> !Meets(p.version, Some(constraint))
  {
    repl := None;
    for i := 0 to |ps|
      invariant repl.Some? ==> repl.value in ps && IsFirstFit(ps, constraint, repl.value)
      invariant repl.None? ==> forall j :: 0 <= j < i ==> !Meets(ps[j].version, Some(constraint))
    {
      if repl.None? {
        var fits := VersionSatisfied(ps[i].version, constraint.ver, constraint.op);
        if fits { repl := Some(ps[i]); }
      }
    }
  }

  /** The one package that may be planned for a provider: itself, or the replacement of an installed one. */
  ghost predicate IsPlan(db: Database, pkg: Package, constraint: Option<Constraint>, r: Package) {
    if pkg.installed then
      !Meets(pkg.version, constraint) && IsFirstFit(ProvidersOf(db.available, pkg.name), constraint.value, r)
    else r == pkg && !pkg.missing && Meets(pkg.version, constraint)
  }

  /** The one problem a provider may have: its installed version, the version in the repository, or none there. */
  ghost predicate IsProblem(db: Database, pkg: Package, constraint: Option<Constraint>, e: Problem) {
    if pkg.installed then
      && !Meets(pkg.version, constraint) && e == InstalledIncompatible(pkg.name, constraint.value, pkg.version)
      && forall r :: r in ProvidersOf(db.available, pkg.name) ==> !Meets(r.version, constraint)
    else if !pkg.missing then
      !Meets(pkg.version, constraint) && e == AvailableIncompatible(pkg.name, constraint.value, pkg.version)
    else e == NotAvailable(pkg.name)
  }

  /** Nothing happens to an installed package that fits; for all others there is one new plan or one new problem. */
  ghost predicate IsStatus(db: Database, pkg: Package, constraint: Option<Constraint>, install: seq<Package>,
                           errors: seq<Problem>, install': seq<Package>, errors': seq<Problem>) {
    if pkg.installed && Meets(pkg.version, constraint) then install' == install && errors' == errors
    else
      || (errors' == errors && exists r :: IsPlan(db, pkg, constraint, r) && install' == install + [r])
      || (install' == install && exists e :: IsProblem(db, pkg, constraint, e) && errors' == errors + [e])
  }

  /** Plans or rejects one provider; there is a new error exactly when the provider is not taken care of. */
  method PkgStatus(db: Database, pkg: Package, constraint: Option<Constraint>, info: Info)
    modifies info
    ensures info.seen == old(info.seen) && old(info.install) <= info.install && old(info.errors) <= info.errors
    ensures info.errors == old(info.errors) <==> Planned(db, pkg, constraint, info.install)
    ensures IsStatus(db, pkg, constraint, old(info.install), old(info.errors), info.install, info.errors)
  {
    if pkg.installed {
      if constraint.Some? {
        var ok := VersionSatisfied(pkg.version, constraint.value.ver, constraint.value.op);
        if !ok {
          var repl := FindReplacement(ProvidersOf(db.available, pkg.name), constraint.value);
          if repl.Some? {
            info.install := info.install + [repl.value];
          } else {
            info.errors := info.errors + [InstalledIncompatible(pkg.name, constraint.value, pkg.version)];
          }
        }
      }
    } else if !pkg.missing {
      var fits := true;
      if constraint.Some? { fits := VersionSatisfied(pkg.version, constraint.value.ver, constraint.value.op); }
      if fits {
        info.install := info.install + [pkg];
      } else {
        info.errors := info.errors + [AvailableIncompatible(pkg.name, constraint.value, pkg.version)];
      }
    } else {
      info.errors := info.errors + [NotAvailable(pkg.name)];
    }
  }

  /** A package that is planned for a record. */
  ghost predicate PlansFor(db: Database, dep: Dep, r: Package) {
    exists p :: p in dep.pkgs && IsPlan(db, Resolve(db, p, dep.name), dep.constraint, r)
  }

  /** A problem of a record. */
  ghost predicate BlamesFor(db: Database, dep: Dep, e: Problem) {
    if dep.pkgs == [] then e == NotAvailable(dep.name)
    else exists p :: p in dep.pkgs && IsProblem(db, Resolve(db, p, dep.name), dep.constraint, e)
  }

  ghost predicate SomePlans(db: Database, seen: map<string, Dep>, r: Package) {
    exists n :: n in seen && PlansFor(db, seen[n], r)
  }

  ghost predicate SomeBlames(db: Database, seen: map<string, Dep>, e: Problem) {
    exists n :: n in seen && BlamesFor(db, seen[n], e)
  }

  /** All plans but the first m, and all problems but the first k, belong to the record. */
  ghost predicate OwnWork(db: Database, dep: Dep, m: nat, k: nat, install: seq<Package>, errors: seq<Problem>) {
    && (forall i :: m <= i < |install| ==> PlansFor(db, dep, install[i]))
    && forall i :: k <= i < |errors| ==> BlamesFor(db, dep, errors[i])
  }

  /** All of these belong to some record. */
  ghost predicate Justified(db: Database, seen: map<string, Dep>, m: nat, k: nat, install: seq<Package>, errors: seq<Problem>) {
    && (forall i :: m <= i < |install| ==> SomePlans(db, seen, install[i]))
    && forall i :: k <= i < |errors| ==> SomeBlames(db, seen, errors[i])
  }

  /** Everything recorded for a dependency is taken care of. */
  ghost predicate Covered(db: Database, dep: Dep, install: seq<Package>) {
    dep.pkgs != [] && forall p :: p in dep.pkgs ==> Planned(db, Resolve(db, p, dep.name), dep.constraint, install)
  }

  /** The finite set of names a walk can meet. */
  ghost predicate Closed(db: Database, universe: set<string>) {
    forall n, m :: n in universe && Needs(db, n, m) ==> m in universe
  }

  /** The new names of a walk, what they record and what is planned for them. */
  ghost predicate Progress(db: Database, universe: set<string>, seen0: map<string, Dep>, seen: map<string, Dep>) {
    && seen.Keys <= universe
    && (forall n :: n in seen0 ==> n in seen && seen[n] == seen0[n])
    && forall n :: n in seen && n !in seen0 ==> seen[n].name == n && seen[n].pkgs == ProviderNames(db, n)
  }

  ghost predicate Expanded(db: Database, seen0: map<string, Dep>, seen: map<string, Dep>) {
    forall n, m {:trigger Needs(db, n, m)} :: n in seen && n !in seen0 && Needs(db, n, m) ==> m in seen
  }

  ghost predicate AllCovered(db: Database, seen0: map<string, Dep>, seen: map<string, Dep>, install: seq<Package>) {
    forall n {:trigger Covered(db, seen[n], install)} :: n in seen && n !in seen0 ==> Covered(db, seen[n], install)
  }

  ghost predicate OnlyReachable(db: Database, roots: set<string>, seen0: map<string, Dep>, seen: map<string, Dep>) {
    forall n {:trigger Reachable(db, roots, n)} :: n in seen && n !in seen0 ==> Reachable(db, roots, n)
  }

  /** A dependency text that the walk reads: a given one, or one of a provider of a recorded name. */
  ghost predicate IsRead(db: Database, texts: set<string>, seen: map<string, Dep>, d: string) {
    d != "libc" && (d in texts ||
      exists m, p :: m in seen && p in ProviderNames(db, m) && d in Resolve(db, p, m).depends)
  }

  ghost predicate HasSource(db: Database, texts: set<string>, seen: map<string, Dep>, spec: Spec) {
    exists d :: IsRead(db, texts, seen, d) && ParseDep(d) == spec
  }

  /** Each new record has its constraint from a text that was read. */
  ghost predicate Sourced(db: Database, texts: set<string>, seen0: map<string, Dep>, seen: map<string, Dep>) {
    forall n {:trigger HasSource(db, texts, seen, Spec(n, seen[n].constraint))} ::
      n in seen && n !in seen0 ==> HasSource(db, texts, seen, Spec(n, seen[n].constraint))
  }

  ghost function Texts(deps: seq<string>): set<string> { set d | d in deps }

  /** All names of a rendered tree, in order. */
  function TreeNames(items: seq<Item>): seq<string> {
    if items == [] then [] else [items[0].name] + TreeNames(items[0].subdeps) + TreeNames(items[1..])
  }

  ghost predicate Distinct(s: seq<string>) { forall i, j :: 0 <= i < j < |s| ==> s[i] != s[j] }

  /** The tree lists exactly the new names, each once. */
  ghost predicate ListsNew(items: seq<Item>, seen0: map<string, Dep>, seen: map<string, Dep>) {
    Distinct(TreeNames(items)) && forall n :: n in TreeNames(items) <==> n in seen && n !in seen0
  }

  /** The i-th text names something that is neither recorded yet nor needed by the texts before it. */
  ghost predicate IsFirst(db: Database, deps: seq<string>, i: nat, seen0: map<string, Dep>)
    requires i < |deps|
  {
    && deps[i] != "libc" && ParseDep(deps[i]).name !in seen0
    && !Reachable(db, DepNames(deps[..i]), ParseDep(deps[i]).name)
  }

  ghost predicate KeepsConstraint(d: string, seen: map<string, Dep>) {
    ParseDep(d).name in seen && seen[ParseDep(d).name].constraint == ParseDep(d).constraint
  }

  /** The first text for a name decides about its version. */
  ghost predicate FirstDecides(db: Database, deps: seq<string>, seen0: map<string, Dep>, seen: map<string, Dep>) {
    forall i :: 0 <= i < |deps| && IsFirst(db, deps, i, seen0) ==> KeepsConstraint(deps[i], seen)
  }

  /** The walk from these texts: what is recorded, why, and how it is listed. */
  ghost predicate Walked(db: Database, universe: set<string>, deps: seq<string>, flat: bool, seen0: map<string, Dep>,
                         seen: map<string, Dep>, items: seq<Item>) {
    && Progress(db, universe, seen0, seen) && DepNames(deps) <= seen.Keys
    && (if flat then seen.Keys == seen0.Keys + DepNames(deps) else Expanded(db, seen0, seen))
    && OnlyReachable(db, DepNames(deps), seen0, seen) && Sourced(db, Texts(deps), seen0, seen)
    && FirstDecides(db, deps, seen0, seen) && ListsNew(items, seen0, seen)
  }

  // ---- One step of the walk -------------------------------------------------------------------

  lemma PlannedGrows(db: Database, pkg: Package, constraint: Option<Constraint>, a: seq<Package>, b: seq<Package>)
    requires a <= b && Planned(db, pkg, constraint, a)
    ensures Planned(db, pkg, constraint, b)
  {
    assert forall r :: r in a ==> r in b by { assert b == a + b[|a|..]; }
  }

  lemma CoveredGrows(db: Database, seen0: map<string, Dep>, seen: map<string, Dep>, a: seq<Package>, b: seq<Package>)
    requires a <= b && AllCovered(db, seen0, seen, a)
    ensures AllCovered(db, seen0, seen, b)
  {
    forall n | n in seen && n !in seen0 ensures Covered(db, seen[n], b) {
      assert Covered(db, seen[n], a);
      forall p | p in seen[n].pkgs ensures Planned(db, Resolve(db, p, seen[n].name), seen[n].constraint, b) {
        PlannedGrows(db, Resolve(db, p, seen[n].name), seen[n].constraint, a, b);
      }
    }
  }

  lemma OwnStep(db: Database, dep: Dep, p: string, m: nat, k: nat, install: seq<Package>, errors: seq<Problem>,
                install': seq<Package>, errors': seq<Problem>)
    requires OwnWork(db, dep, m, k, install, errors) && p in dep.pkgs
    requires IsStatus(db, Resolve(db, p, dep.name), dep.constraint, install, errors, install', errors')
    ensures OwnWork(db, dep, m, k, install', errors')
  {
    hide Resolve, IsPlan, IsProblem;
    forall i | m <= i < |install'| ensures PlansFor(db, dep, install'[i]) {
      assert i < |install| ==> install'[i] == install[i];
    }
    forall i | k <= i < |errors'| ensures BlamesFor(db, dep, errors'[i]) {
      assert i < |errors| ==> errors'[i] == errors[i];
    }
  }

  /** Work for earlier records stays justified when more is recorded and more is done. */
  lemma JustifiedGrows(db: Database, seen: map<string, Dep>, seen': map<string, Dep>, m: nat, k: nat,
                       install: seq<Package>, errors: seq<Problem>, install': seq<Package>, errors': seq<Problem>)
    requires Justified(db, seen, m, k, install, errors) && Justified(db, seen', |install|, |errors|, install', errors')
    requires install <= install' && errors <= errors'
    requires forall n :: n in seen ==> n in seen' && seen'[n] == seen[n]
    ensures Justified(db, seen', m, k, install', errors')
  {
    hide PlansFor, BlamesFor;
    forall r | SomePlans(db, seen, r) ensures SomePlans(db, seen', r) {
      var n :| n in seen && PlansFor(db, seen[n], r);
      assert n in seen' && PlansFor(db, seen'[n], r);
    }
    forall e | SomeBlames(db, seen, e) ensures SomeBlames(db, seen', e) {
      var n :| n in seen && BlamesFor(db, seen[n], e);
      assert n in seen' && BlamesFor(db, seen'[n], e);
    }
    hide SomePlans, SomeBlames;
    forall i | m <= i < |install'| ensures SomePlans(db, seen', install'[i]) {
      if i < |install| { assert install'[i] == install[i]; }
    }
    forall i | k <= i < |errors'| ensures SomeBlames(db, seen', errors'[i]) {
      if i < |errors| { assert errors'[i] == errors[i]; }
    }
  }

  lemma OwnIsJustified(db: Database, seen: map<string, Dep>, n: string, m: nat, k: nat, install: seq<Package>, errors: seq<Problem>)
    requires n in seen && OwnWork(db, seen[n], m, k, install, errors)
    ensures Justified(db, seen, m, k, install, errors)
  {
  }

  /** A problem of a record is a provider that is not taken care of, so the record is not covered. */
  lemma BlamedIsOpen(db: Database, dep: Dep, e: Problem, install: seq<Package>)
    requires BlamesFor(db, dep, e)
    ensures !Covered(db, dep, install)
  {
    if dep.pkgs != [] {
      var p :| p in dep.pkgs && IsProblem(db, Resolve(db, p, dep.name), dep.constraint, e);
      assert !Planned(db, Resolve(db, p, dep.name), dep.constraint, install);
    }
  }

  lemma WholeIsJustified(db: Database, seen: map<string, Dep>, install: seq<Package>, errors: seq<Problem>)
    requires Justified(db, seen, 0, 0, install, errors)
    ensures forall r :: r in install ==> SomePlans(db, seen, r)
    ensures forall e :: e in errors ==> SomeBlames(db, seen, e)
    ensures (forall n :: n in seen ==> Covered(db, seen[n], install)) ==> errors == []
  {
    if errors != [] {
      assert SomeBlames(db, seen, errors[0]);
      var n :| n in seen && BlamesFor(db, seen[n], errors[0]);
      BlamedIsOpen(db, seen[n], errors[0], install);
    }
    hide SomePlans, SomeBlames, Covered;
  }

  lemma MoreRoots(db: Database, a: set<string>, b: set<string>, n: string)
    requires a <= b && Reachable(db, a, n)
    ensures Reachable(db, b, n)
  {
    var path :| IsPath(db, a, path) && path[|path| - 1] == n;
    assert IsPath(db, b, path);
  }

  lemma {:induction false} TreeNamesAppend(items: seq<Item>, item: Item)
    ensures TreeNames(items + [item]) == TreeNames(items) + [item.name] + TreeNames(item.subdeps)
  {
    if items == [] {
      assert [item][1..] == [];
    } else {
      assert (items + [item])[1..] == items[1..] + [item];
      TreeNamesAppend(items[1..], item);
    }
  }

  /** A new name and the walk below it, added to what was walked before. */
  lemma WalkStep(db: Database, universe: set<string>, roots: set<string>, dep: Dep,
                 seen0: map<string, Dep>, before: map<string, Dep>, after: map<string, Dep>)
    requires Progress(db, universe, seen0, before) && dep.name in universe && dep.name !in before && dep.name in roots
    requires dep.pkgs == ProviderNames(db, dep.name)
    requires var here := before[dep.name := dep];
             Progress(db, universe, here, after) && OnlyReachable(db, {dep.name}, here, after)
    requires OnlyReachable(db, roots, seen0, before)
    ensures Progress(db, universe, seen0, after) && OnlyReachable(db, roots, seen0, after)
  {
    var here := before[dep.name := dep];
    forall n | n in after && n !in seen0 ensures Reachable(db, roots, n) {
      if n == dep.name {
        RootReachable(db, roots, n);
      } else if n !in before {
        assert Reachable(db, {dep.name}, n);
        MoreRoots(db, {dep.name}, roots, n);
      }
    }
  }

  lemma ExpandStep(db: Database, dep: Dep, seen0: map<string, Dep>, before: map<string, Dep>, after: map<string, Dep>)
    requires Expanded(db, seen0, before) && Expanded(db, before[dep.name := dep], after)
    requires before.Keys <= after.Keys && forall m :: Needs(db, dep.name, m) ==> m in after
    ensures Expanded(db, seen0, after)
  {
  }

  lemma CoverStep(db: Database, dep: Dep, seen0: map<string, Dep>, before: map<string, Dep>, after: map<string, Dep>,
                  a: seq<Package>, b: seq<Package>)
    requires a <= b && AllCovered(db, seen0, before, a)
    requires Covered(db, dep, b) && AllCovered(db, before[dep.name := dep], after, b)
    requires forall n :: n in before[dep.name := dep] ==> n in after && after[n] == before[dep.name := dep][n]
    requires dep.name !in before
    ensures AllCovered(db, seen0, after, b)
  {
    CoveredGrows(db, seen0, before, a, b);
    forall n | n in after && n !in seen0 ensures Covered(db, after[n], b) {
      assert n in before ==> Covered(db, before[n], b);
    }
  }

  lemma SourceStep(db: Database, texts: set<string>, seen0: map<string, Dep>, before: map<string, Dep>,
                   after: map<string, Dep>, d: string)
    requires Sourced(db, texts, seen0, before) && IsRead(db, texts, before, d)
    requires var n := ParseDep(d).name;
             n in after && after[n].constraint == ParseDep(d).constraint && Sourced(db, {}, before[n := after[n]], after)
    requires forall n :: n in before ==> n in after && after[n] == before[n]
    ensures Sourced(db, texts, seen0, after)
  {
    forall n | n in after && n !in seen0
      ensures HasSource(db, texts, after, Spec(n, after[n].constraint))
    {
      if n == ParseDep(d).name {
        ReadGrows(db, texts, texts, before, after, d);
      } else if n in before {
        assert HasSource(db, texts, before, Spec(n, before[n].constraint));
        var d' :| IsRead(db, texts, before, d') && ParseDep(d') == Spec(n, before[n].constraint);
        ReadGrows(db, texts, texts, before, after, d');
      } else {
        assert HasSource(db, {}, after, Spec(n, after[n].constraint));
        var d' :| IsRead(db, {}, after, d') && ParseDep(d') == Spec(n, after[n].constraint);
        ReadGrows(db, {}, texts, after, after, d');
      }
    }
  }

  lemma ReadGrows(db: Database, a: set<string>, b: set<string>, seen: map<string, Dep>, seen': map<string, Dep>, d: string)
    requires IsRead(db, a, seen, d) && a <= b && seen.Keys <= seen'.Keys
    ensures IsRead(db, b, seen', d)
  {
    if d !in a {
      var m, p :| m in seen && p in ProviderNames(db, m) && d in Resolve(db, p, m).depends;
      assert m in seen';
    }
  }

  lemma SubSourced(db: Database, dep: Dep, depends: seq<string>, seen0: map<string, Dep>, seen: map<string, Dep>)
    requires Sourced(db, Texts(depends), seen0, seen) && dep.name in seen && dep.pkgs == ProviderNames(db, dep.name)
    requires forall d :: d in depends <==> exists p :: p in dep.pkgs && d in Resolve(db, p, dep.name).depends
    ensures Sourced(db, {}, seen0, seen)
  {
    forall n | n in seen && n !in seen0
      ensures HasSource(db, {}, seen, Spec(n, seen[n].constraint))
    {
      assert HasSource(db, Texts(depends), seen, Spec(n, seen[n].constraint));
      var d :| IsRead(db, Texts(depends), seen, d) && ParseDep(d) == Spec(n, seen[n].constraint);
      if d in depends {
        var p :| p in dep.pkgs && d in Resolve(db, p, dep.name).depends;
        assert dep.name in seen && p in ProviderNames(db, dep.name) && d in Resolve(db, p, dep.name).depends;
      }
      assert IsRead(db, {}, seen, d);
    }
  }

  lemma DistinctConcat(a: seq<string>, x: string, b: seq<string>)
    requires Distinct(a) && Distinct(b) && x !in a && x !in b && forall n :: n in a ==> n !in b
    ensures Distinct(a + [x] + b) && forall n :: n in a + [x] + b <==> n in a || n == x || n in b
  {
    var c := a + [x] + b;
    forall i, j | 0 <= i < j < |c| ensures c[i] != c[j] {
      assert c[i] == if i < |a| then a[i] else if i == |a| then x else b[i - |a| - 1];
      assert c[j] == if j < |a| then a[j] else if j == |a| then x else b[j - |a| - 1];
      assert (i < |a| ==> c[i] in a) && (i > |a| ==> c[i] in b) && (j > |a| ==> c[j] in b);
    }
  }

  lemma ListStep(items: seq<Item>, item: Item, seen0: map<string, Dep>, before: map<string, Dep>, dep: Dep,
                 after: map<string, Dep>)
    requires ListsNew(items, seen0, before) && item.name == dep.name && dep.name !in before
    requires ListsNew(item.subdeps, before[dep.name := dep], after)
    requires seen0.Keys <= before.Keys && before.Keys + {dep.name} <= after.Keys
    ensures ListsNew(items + [item], seen0, after)
  {
    TreeNamesAppend(items, item);
    var a, b := TreeNames(items), TreeNames(item.subdeps);
    DistinctConcat(a, item.name, b);
  }

  // ---- renderDependencies and renderDependencyItem --------------------------------------------

  method RenderDependencies(db: Database, deps: seq<string>, info: Info, flat: bool, ghost universe: set<string>)
    returns (items: seq<Item>)
    requires DepNames(deps) <= universe && Closed(db, universe) && info.seen.Keys <= universe
    modifies info
    ensures Walked(db, universe, deps, flat, old(info.seen), info.seen, items)
    ensures old(info.install) <= info.install && old(info.errors) <= info.errors
    ensures info.errors == old(info.errors) ==> AllCovered(db, old(info.seen), info.seen, info.install)
    ensures Justified(db, info.seen, old(|info.install|), old(|info.errors|), info.install, info.errors)
    decreases universe - info.seen.Keys, 1
  {
    items := [];
    ghost var m, k := |info.install|, |info.errors|;
    NothingWalked(db, universe, flat, info.seen, info.install, info.errors);
    ghost var front: seq<string> := [];
    hide *;
    for i := 0 to |deps|
      invariant front == deps[..i] && Walked(db, universe, front, flat, old(info.seen), info.seen, items)
      invariant old(info.seen).Keys <= info.seen.Keys <= universe
      invariant old(info.install) <= info.install && old(info.errors) <= info.errors
      invariant info.errors == old(info.errors) ==> AllCovered(db, old(info.seen), info.seen, info.install)
      invariant Justified(db, info.seen, m, k, info.install, info.errors)
    {
      OneMoreName(deps, i);
      var spec := ParseDep(deps[i]);
      if deps[i] == "libc" || spec.name in info.seen {
        WalkSkip(db, universe, front, deps[i], flat, old(info.seen), info.seen, items);
      } else {
        var item := RenderNew(db, spec, info, flat, universe, front, deps[i], old(info.seen), items, m, k);
        items := items + [item];
      }
      front := front + [deps[i]];
    }
    assert deps[..|deps|] == deps;
  }

  lemma NothingWalked(db: Database, universe: set<string>, flat: bool, seen: map<string, Dep>, install: seq<Package>,
                      errors: seq<Problem>)
    requires seen.Keys <= universe
    ensures Walked(db, universe, [], flat, seen, seen, []) && AllCovered(db, seen, seen, install)
    ensures Justified(db, seen, |install|, |errors|, install, errors)
  {
    assert DepNames([]) == {};
  }

  lemma OneMoreName(deps: seq<string>, i: nat)
    requires i < |deps|
    ensures deps[..i + 1] == deps[..i] + [deps[i]]
    ensures deps[i] != "libc" ==> ParseDep(deps[i]).name in DepNames(deps)
  {
  }

  lemma MoreNames(front: seq<string>, d: string)
    ensures DepNames(front + [d]) == DepNames(front) + if d == "libc" then {} else {ParseDep(d).name}
    ensures Texts(front + [d]) == Texts(front) + {d}
  {
  }

  /** What holds of the walk from some roots and texts holds of it from more of them. */
  lemma MoreTexts(db: Database, universe: set<string>, front: seq<string>, d: string, seen0: map<string, Dep>, seen: map<string, Dep>)
    requires OnlyReachable(db, DepNames(front), seen0, seen) && Sourced(db, Texts(front), seen0, seen)
    ensures OnlyReachable(db, DepNames(front + [d]), seen0, seen) && Sourced(db, Texts(front + [d]), seen0, seen)
  {
    MoreNames(front, d);
    var more := front + [d];
    hide DepNames, Texts, ParseDep;
    forall n | n in seen && n !in seen0
      ensures Reachable(db, DepNames(more), n) && HasSource(db, Texts(more), seen, Spec(n, seen[n].constraint))
    {
      assert Reachable(db, DepNames(front), n);
      MoreRoots(db, DepNames(front), DepNames(more), n);
      assert HasSource(db, Texts(front), seen, Spec(n, seen[n].constraint));
      MoreSources(db, Texts(front), Texts(more), seen, Spec(n, seen[n].constraint));
    }
  }

  lemma MoreSources(db: Database, a: set<string>, b: set<string>, seen: map<string, Dep>, spec: Spec)
    requires HasSource(db, a, seen, spec) && a <= b
    ensures HasSource(db, b, seen, spec)
  {
    var d :| IsRead(db, a, seen, d) && ParseDep(d) == spec;
    ReadGrows(db, a, b, seen, seen, d);
  }

  /** A text that stands for nothing, or for a name that is recorded already. */
  lemma WalkSkip(db: Database, universe: set<string>, front: seq<string>, d: string, flat: bool, seen0: map<string, Dep>,
                 seen: map<string, Dep>, items: seq<Item>)
    requires Walked(db, universe, front, flat, seen0, seen, items) && (d == "libc" || ParseDep(d).name in seen)
    ensures Walked(db, universe, front + [d], flat, seen0, seen, items)
  {
    MoreNames(front, d);
    MoreTexts(db, universe, front, d, seen0, seen);
    NotFirst(db, front, d, seen0, seen);
    assert DepNames(front + [d]) <= seen.Keys && (flat ==> DepNames(front + [d]) == DepNames(front) || d != "libc");
    FirstStep(db, front, d, seen0, seen, seen);
    hide Progress, Sourced, Expanded, ListsNew, DepNames, Texts, ParseDep, OnlyReachable, FirstDecides;
  }

  lemma NotFirst(db: Database, front: seq<string>, d: string, seen0: map<string, Dep>, seen: map<string, Dep>)
    requires OnlyReachable(db, DepNames(front), seen0, seen) && (d == "libc" || ParseDep(d).name in seen)
    ensures !IsFirst(db, front + [d], |front|, seen0)
  {
    var more := front + [d];
    assert more[..|front|] == front && more[|front|] == d;
    hide DepNames, ParseDep, Reachable;
  }

  lemma OneLess(universe: set<string>, names: set<string>, x: string)
    requires x in universe && x !in names && names <= universe
    ensures universe - (names + {x}) < universe - names && names + {x} <= universe
  {
    assert x in universe - names && x !in universe - (names + {x});
  }

  /** A new name, with all that its item did, added to the walk. */
  lemma WalkNew(db: Database, universe: set<string>, front: seq<string>, d: string, flat: bool, dep: Dep,
                seen0: map<string, Dep>, before: map<string, Dep>, after: map<string, Dep>, items: seq<Item>, item: Item)
    requires Walked(db, universe, front, flat, seen0, before, items) && d != "libc" && dep.name !in before && dep.name in universe
    requires dep == Dep(ParseDep(d).name, ProviderNames(db, dep.name), ParseDep(d).constraint)
    requires var here := before[dep.name := dep];
             && Progress(db, universe, here, after) && OnlyReachable(db, {dep.name}, here, after) && Sourced(db, {}, here, after)
             && item.name == dep.name && ListsNew(item.subdeps, here, after)
             && if flat then after == here else Expanded(db, here, after) && forall m :: Needs(db, dep.name, m) ==> m in after
    ensures Walked(db, universe, front + [d], flat, seen0, after, items + [item])
  {
    hide *;
    var more, here := front + [d], before[dep.name := dep];
    WalkedNames(db, universe, front, flat, seen0, before, items);
    WalkedParts(db, universe, front, flat, seen0, before, items);
    Kept(db, universe, before, dep, after);
    NewText(db, front, d, dep, before, after);
    assert here.Keys == before.Keys + {dep.name};
    MoreTexts(db, universe, front, d, seen0, before);
    WalkStep(db, universe, DepNames(more), dep, seen0, before, after);
    SourceStep(db, Texts(more), seen0, before, after, d);
    FirstStep(db, front, d, seen0, before, after);
    ListStep(items, item, seen0, before, dep, after);
    if !flat { ExpandStep(db, dep, seen0, before, after); }
    WalkedWhole(db, universe, more, flat, seen0, after, items + [item]);
  }

  lemma NewText(db: Database, front: seq<string>, d: string, dep: Dep, before: map<string, Dep>, after: map<string, Dep>)
    requires d != "libc" && dep.name == ParseDep(d).name && dep.constraint == ParseDep(d).constraint
    requires dep.name in after && after[dep.name] == dep
    ensures IsRead(db, Texts(front + [d]), before, d) && KeepsConstraint(d, after)
    ensures DepNames(front + [d]) == DepNames(front) + {dep.name}
  {
    MoreNames(front, d);
    hide DepNames, ParseDep;
  }

  lemma WalkedParts(db: Database, universe: set<string>, deps: seq<string>, flat: bool, seen0: map<string, Dep>,
                    seen: map<string, Dep>, items: seq<Item>)
    requires Walked(db, universe, deps, flat, seen0, seen, items)
    ensures DepNames(deps) <= seen.Keys && ListsNew(items, seen0, seen) && FirstDecides(db, deps, seen0, seen)
    ensures OnlyReachable(db, DepNames(deps), seen0, seen) && Sourced(db, Texts(deps), seen0, seen)
    ensures if flat then seen.Keys == seen0.Keys + DepNames(deps) else Expanded(db, seen0, seen)
  {
  }

  lemma WalkedWhole(db: Database, universe: set<string>, deps: seq<string>, flat: bool, seen0: map<string, Dep>,
                    seen: map<string, Dep>, items: seq<Item>)
    requires Progress(db, universe, seen0, seen) && DepNames(deps) <= seen.Keys
    requires if flat then seen.Keys == seen0.Keys + DepNames(deps) else Expanded(db, seen0, seen)
    requires OnlyReachable(db, DepNames(deps), seen0, seen) && Sourced(db, Texts(deps), seen0, seen)
    requires FirstDecides(db, deps, seen0, seen) && ListsNew(items, seen0, seen)
    ensures Walked(db, universe, deps, flat, seen0, seen, items)
  {
  }

  lemma FirstStep(db: Database, front: seq<string>, d: string, seen0: map<string, Dep>, before: map<string, Dep>, after: map<string, Dep>)
    requires FirstDecides(db, front, seen0, before)
    requires IsFirst(db, front + [d], |front|, seen0) ==> KeepsConstraint(d, after)
    requires forall n :: n in before ==> n in after && after[n] == before[n]
    ensures FirstDecides(db, front + [d], seen0, after)
  {
    hide Reachable, DepNames, ParseDep;
    var more := front + [d];
    forall j | 0 <= j < |more| && IsFirst(db, more, j, seen0) ensures KeepsConstraint(more[j], after) {
      assert more[..j] == front[..j];
      if j < |front| { assert more[j] == front[j] && IsFirst(db, front, j, seen0) && KeepsConstraint(front[j], before); }
    }
  }

  lemma WalkedNames(db: Database, universe: set<string>, deps: seq<string>, flat: bool, seen0: map<string, Dep>,
                    seen: map<string, Dep>, items: seq<Item>)
    requires Walked(db, universe, deps, flat, seen0, seen, items)
    ensures seen0.Keys <= seen.Keys <= universe && Progress(db, universe, seen0, seen)
  {
  }

  /** The part of the loop body for a name that is not recorded yet. */
  method RenderNew(db: Database, spec: Spec, info: Info, flat: bool, ghost universe: set<string>,
                   ghost front: seq<string>, ghost text: string, ghost seen0: map<string, Dep>, ghost items: seq<Item>,
                   ghost m: nat, ghost k: nat)
    returns (item: Item)
    requires Closed(db, universe) && Walked(db, universe, front, flat, seen0, info.seen, items)
    requires text != "libc" && spec == ParseDep(text) && spec.name in universe && spec.name !in info.seen
    requires Justified(db, info.seen, m, k, info.install, info.errors)
    modifies info
    ensures Walked(db, universe, front + [text], flat, seen0, info.seen, items + [item])
    ensures old(info.seen).Keys <= info.seen.Keys <= universe
    ensures old(info.install) <= info.install && old(info.errors) <= info.errors
    ensures Justified(db, info.seen, m, k, info.install, info.errors)
    ensures info.errors == old(info.errors) && old(AllCovered(db, seen0, info.seen, info.install)) ==>
              AllCovered(db, seen0, info.seen, info.install)
    decreases universe - info.seen.Keys, 0
  {
    ghost var before, planned, problems := info.seen, info.install, info.errors;
    hide *;
    WalkedNames(db, universe, front, flat, seen0, before, items);
    var dep := Dep(spec.name, ProviderNames(db, spec.name), spec.constraint);
    info.seen := info.seen[spec.name := dep];
    OneLess(universe, before.Keys, spec.name);
    assert info.seen.Keys == before.Keys + {spec.name};
    item := RenderDependencyItem(db, dep, info, flat, universe);
    WalkNew(db, universe, front, text, flat, dep, seen0, before, info.seen, items, item);
    WalkedNames(db, universe, front + [text], flat, seen0, info.seen, items + [item]);
    Kept(db, universe, before, dep, info.seen);
    JustifiedGrows(db, before, info.seen, m, k, planned, problems, info.install, info.errors);
    if info.errors == old(info.errors) && AllCovered(db, seen0, before, planned) {
      CoverStep(db, dep, seen0, before, info.seen, planned, info.install);
    }
  }

  lemma Kept(db: Database, universe: set<string>, before: map<string, Dep>, dep: Dep, after: map<string, Dep>)
    requires dep.name !in before && Progress(db, universe, before[dep.name := dep], after)
    ensures before.Keys + {dep.name} <= after.Keys && after[dep.name] == dep
    ensures forall n :: n in before ==> n in after && after[n] == before[n]
    ensures forall n :: n in before[dep.name := dep] ==> n in after && after[n] == before[dep.name := dep][n]
  {
  }

  function AddUnique(names: seq<string>, more: seq<string>): (r: seq<string>)
    ensures forall n :: n in r <==> n in names || n in more
    decreases more
  {
    if more == [] then names
    else AddUnique(if more[0] in names then names else names + [more[0]], more[1..])
  }

  method RenderDependencyItem(db: Database, dep: Dep, info: Info, flat: bool, ghost universe: set<string>)
    returns (item: Item)
    requires Closed(db, universe) && info.seen.Keys <= universe && dep.name in info.seen && info.seen[dep.name] == dep
    requires dep.pkgs == ProviderNames(db, dep.name)
    modifies info
    ensures Progress(db, universe, old(info.seen), info.seen)
    ensures old(info.install) <= info.install && old(info.errors) <= info.errors
    ensures !flat ==> Expanded(db, old(info.seen), info.seen) && forall m :: Needs(db, dep.name, m) ==> m in info.seen
    ensures flat ==> info.seen == old(info.seen)
    ensures OnlyReachable(db, {dep.name}, old(info.seen), info.seen)
    ensures Sourced(db, {}, old(info.seen), info.seen)
    ensures info.errors == old(info.errors) ==>
              Covered(db, dep, info.install) && AllCovered(db, old(info.seen), info.seen, info.install)
    ensures Justified(db, info.seen, old(|info.install|), old(|info.errors|), info.install, info.errors)
    ensures item.name == dep.name && ListsNew(item.subdeps, old(info.seen), info.seen)
    decreases universe - info.seen.Keys, 2
  {
    var depends := StatusOfProviders(db, dep, info);
    ghost var planned, problems := info.install, info.errors;
    OwnIsJustified(db, info.seen, dep.name, old(|info.install|), old(|info.errors|), planned, problems);
    if flat { return Item(dep.name, []); }
    NeededNames(db, dep, depends);
    var subdeps := RenderDependencies(db, depends, info, false, universe);
    JustifiedGrows(db, old(info.seen), info.seen, old(|info.install|), old(|info.errors|), planned, problems,
                   info.install, info.errors);
    forall n | n in info.seen && n !in old(info.seen) ensures Reachable(db, {dep.name}, n) {
      ReachableStep(db, {dep.name}, dep.name, DepNames(depends), n);
    }
    SubSourced(db, dep, depends, old(info.seen), info.seen);
    if info.errors == old(info.errors) {
      forall p | p in dep.pkgs ensures Planned(db, Resolve(db, p, dep.name), dep.constraint, info.install) {
        PlannedGrows(db, Resolve(db, p, dep.name), dep.constraint, planned, info.install);
      }
    }
    return Item(dep.name, subdeps);
  }

  /** The status of every provider; returns what they depend on, each text once. */
  method StatusOfProviders(db: Database, dep: Dep, info: Info) returns (depends: seq<string>)
    modifies info
    ensures info.seen == old(info.seen) && old(info.install) <= info.install && old(info.errors) <= info.errors
    ensures info.errors == old(info.errors) ==> Covered(db, dep, info.install)
    ensures OwnWork(db, dep, old(|info.install|), old(|info.errors|), info.install, info.errors)
    ensures forall d :: d in depends <==> exists p :: p in dep.pkgs && d in Resolve(db, p, dep.name).depends
  {
    depends := [];
    for i := 0 to |dep.pkgs|
      invariant info.seen == old(info.seen) && old(info.install) <= info.install && old(info.errors) <= info.errors
      invariant info.errors == old(info.errors) ==>
                  forall p :: p in dep.pkgs[..i] ==> Planned(db, Resolve(db, p, dep.name), dep.constraint, info.install)
      invariant OwnWork(db, dep, old(|info.install|), old(|info.errors|), info.install, info.errors)
      invariant forall d :: d in depends <==> exists p :: p in dep.pkgs[..i] && d in Resolve(db, p, dep.name).depends
    {
      ghost var planned, problems, done := info.install, info.errors, dep.pkgs[..i];
      assert dep.pkgs[..i + 1] == done + [dep.pkgs[i]];
      var pkg := Resolve(db, dep.pkgs[i], dep.name);
      PkgStatus(db, pkg, dep.constraint, info);
      OwnStep(db, dep, dep.pkgs[i], old(|info.install|), old(|info.errors|), planned, problems, info.install, info.errors);
      if info.errors == old(info.errors) {
        forall p | p in done ensures Planned(db, Resolve(db, p, dep.name), dep.constraint, info.install) {
          PlannedGrows(db, Resolve(db, p, dep.name), dep.constraint, planned, info.install);
        }
      }
      depends := AddUnique(depends, pkg.depends);
    }
    assert dep.pkgs[..|dep.pkgs|] == dep.pkgs;
    if |dep.pkgs| == 0 {
      PkgStatus(db, Package(dep.name, "", false, true, [], []), dep.constraint, info);
    }
  }

  lemma NeededNames(db: Database, dep: Dep, depends: seq<string>)
    requires dep.pkgs == ProviderNames(db, dep.name)
    requires forall d :: d in depends <==> exists p :: p in dep.pkgs && d in Resolve(db, p, dep.name).depends
    ensures forall m :: m in DepNames(depends) <==> Needs(db, dep.name, m)
  {
    forall m | m in DepNames(depends) ensures Needs(db, dep.name, m) {
      var d :| d in depends && d != "libc" && ParseDep(d).name == m;
      var p :| p in dep.pkgs && d in Resolve(db, p, dep.name).depends;
      assert m in DepNames(Resolve(db, p, dep.name).depends);
    }
    forall m | Needs(db, dep.name, m) ensures m in DepNames(depends) {
      var p :| p in dep.pkgs && m in DepNames(Resolve(db, p, dep.name).depends);
      var d :| d in Resolve(db, p, dep.name).depends && d != "libc" && ParseDep(d).name == m;
      assert d in depends;
    }
  }

  // ---- The walk as a whole --------------------------------------------------------------------

  /** All names a walk can meet: the roots and whatever any indexed package depends on. */
  ghost function Universe(db: Database, deps: seq<string>): set<string> {
    DepNames(deps)
    + (set n, d | n in db.installed.pkgs && d in db.installed.pkgs[n].depends && d != "libc" :: ParseDep(d).name)
    + (set n, d | n in db.available.pkgs && d in db.available.pkgs[n].depends && d != "libc" :: ParseDep(d).name)
  }

  lemma UniverseClosed(db: Database, deps: seq<string>)
    ensures Closed(db, Universe(db, deps))
  {
    forall n, m | Needs(db, n, m) ensures m in Universe(db, deps) {
      var p :| p in ProviderNames(db, n) && m in DepNames(Resolve(db, p, n).depends);
      var d :| d in Resolve(db, p, n).depends && d != "libc" && ParseDep(d).name == m;
    }
  }

  /**
   * From an empty record the walk ends with exactly the reachable names, each rendered once; and when it
   * reports no problem, every provider of every name is taken care of.
   */
  method Walk(db: Database, deps: seq<string>) returns (info: Info, items: seq<Item>)
    ensures fresh(info)
    ensures forall n :: n in info.seen <==> Reachable(db, DepNames(deps), n)
    ensures Distinct(TreeNames(items)) && forall n :: n in TreeNames(items) <==> n in info.seen
    ensures forall n :: n in info.seen ==> info.seen[n].name == n && info.seen[n].pkgs == ProviderNames(db, n)
    ensures Sourced(db, Texts(deps), map[], info.seen) && FirstDecides(db, deps, map[], info.seen)
    ensures forall r :: r in info.install ==> SomePlans(db, info.seen, r)
    ensures forall e :: e in info.errors ==> SomeBlames(db, info.seen, e)
    ensures info.errors == [] <==> forall n :: n in info.seen ==> Covered(db, info.seen[n], info.install)
  {
    info := new Info();
    UniverseClosed(db, deps);
    items := RenderDependencies(db, deps, info, false, Universe(db, deps));
    WholeIsJustified(db, info.seen, info.install, info.errors);
    hide Justified, SomePlans, SomeBlames, Universe, Needs, Covered, ListsNew, Sourced;
    forall n | Reachable(db, DepNames(deps), n) ensures n in info.seen {
      var path :| IsPath(db, DepNames(deps), path) && path[|path| - 1] == n;
      ClosedContains(db, DepNames(deps), info.seen.Keys, path);
    }
  }

  ghost predicate Named(pkgs: seq<Package>, n: string) { exists k :: 0 <= k < |pkgs| && pkgs[k].name == n }

  /** Each provider is named once, the installed ones before those that are only available. */
  lemma ProviderOrder(db: Database, dep: string) returns (a: seq<string>, b: seq<string>)
    ensures ProviderNames(db, dep) == a + b && Distinct(a + b)
    ensures forall n :: n in a <==> Named(ProvidersOf(db.installed, dep), n)
    ensures forall n :: n in b <==> Named(ProvidersOf(db.available, dep), n) && n !in a
  {
    a := AddNames([], ProvidersOf(db.installed, dep));
    assert forall n :: n in a <==> Named(ProvidersOf(db.installed, dep), n);
    b := TailOf(a, ProvidersOf(db.available, dep));
  }

  lemma TailOf(a: seq<string>, pkgs: seq<Package>) returns (b: seq<string>)
    requires Distinct(a)
    ensures AddNames(a, pkgs) == a + b && Distinct(a + b)
    ensures forall n :: n in b <==> Named(pkgs, n) && n !in a
  {
    var all := AddNames(a, pkgs);
    assert forall n :: n in all <==> n in a || Named(pkgs, n);
    b := all[|a|..];
    assert all == a + b;
    hide AddNames, Named;
    forall n | n in b ensures n !in a {
      var i :| 0 <= i < |b| && b[i] == n;
      assert all[|a| + i] == n;
      forall j | 0 <= j < |a| ensures a[j] != n { assert all[j] == a[j]; }
    }
    forall n ensures n in all <==> n in a || n in b {}
  }

  /** On filed package lists every provider name leads to an indexed package, never to the stand-in. */
  lemma ProvidersResolve(db: Database, dep: string, p: string)
    requires WellFiled(db.installed) && WellFiled(db.available) && p in ProviderNames(db, dep)
    ensures Resolve(db, p, dep).name == p && (p in db.installed.pkgs || p in db.available.pkgs)
    ensures Resolve(db, p, dep) == if p in db.installed.pkgs then db.installed.pkgs[p] else db.available.pkgs[p]
  {
    var ins, av := ProvidersOf(db.installed, dep), ProvidersOf(db.available, dep);
    if k :| 0 <= k < |ins| && ins[k].name == p {
      assert ins[k] in ins;
    } else {
      var k :| 0 <= k < |av| && av[k].name == p;
      assert av[k] in av;
    }
  }

  /** An installed package that fits stays as it is, whatever version of it is available. */
  lemma InstalledIsKept(db: Database, p: string, dep: Dep, install: seq<Package>, errors: seq<Problem>,
                        install': seq<Package>, errors': seq<Problem>)
    requires p in db.installed.pkgs && db.installed.pkgs[p].installed && Meets(db.installed.pkgs[p].version, dep.constraint)
    requires IsStatus(db, Resolve(db, p, dep.name), dep.constraint, install, errors, install', errors')
    ensures install' == install && errors' == errors
  {
  }
}
