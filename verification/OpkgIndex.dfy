/** The package lists: packages by name and by what they provide, as `parseList` files them. */
module OpkgIndex {
  import opened Common

  /** The fields the dependency logic reads; a version or list that is not given is empty. */
  datatype Package = Package(
    name: string,
    version: string,
    installed: bool,
    missing: bool,
    depends: seq<string>,
    offers: seq<string>)

  datatype Index = Index(pkgs: map<string, Package>, providers: map<string, seq<Package>>)

  function ProvidersOf(ix: Index, name: string): seq<Package> {
    if name in ix.providers then ix.providers[name] else []
  }

  /** Appends the package to the providers of each name. */
  function AddProvider(providers: map<string, seq<Package>>, names: seq<string>, pkg: Package): map<string, seq<Package>>
    decreases names
  {
    if names == [] then providers
    else
      var before := if names[0] in providers then providers[names[0]] else [];
      AddProvider(providers[names[0] := before + [pkg]], names[1..], pkg)
  }

  /** A package provides its own name only if nothing was filed under that name before. */
  function Provided(ix: Index, pkg: Package): seq<string> {
    (if pkg.name in ix.providers then [] else [pkg.name]) + pkg.offers
  }

  function FilePackage(ix: Index, pkg: Package): Index {
    Index(ix.pkgs[pkg.name := pkg], AddProvider(ix.providers, Provided(ix, pkg), pkg))
  }

  function FileAll(list: seq<Package>): Index {
    if list == [] then Index(map[], map[]) else FilePackage(FileAll(list[..|list| - 1]), list[|list| - 1])
  }

  method ParseList(list: seq<Package>) returns (ix: Index)
    ensures ix == FileAll(list)
  {
    var pkgs: map<string, Package>, providers: map<string, seq<Package>> := map[], map[];
    for i := 0 to |list|
      invariant Index(pkgs, providers) == FileAll(list[..i])
    {
      assert list[..i + 1][..i] == list[..i];
      ghost var ix0 := Index(pkgs, providers);
      var pkg := list[i];
      pkgs := pkgs[pkg.name := pkg];
      var names := if pkg.name in providers then [] else [pkg.name];
      names := names + pkg.offers;
      ghost var goal := AddProvider(providers, names, pkg);
      for k := 0 to |names|
        invariant AddProvider(providers, names[k..], pkg) == goal
      {
        assert names[k..][1..] == names[k + 1..];
        ghost var p0 := providers;
        if names[k] !in providers { providers := providers[names[k] := []]; }
        providers := providers[names[k] := providers[names[k]] + [pkg]];
        assert providers == p0[names[k] := (if names[k] in p0 then p0[names[k]] else []) + [pkg]];
      }
    }
    assert list[..|list|] == list;
    return Index(pkgs, providers);
  }

  lemma {:induction false} AddProviderAdds(providers: map<string, seq<Package>>, names: seq<string>, pkg: Package, x: string, p: Package)
    ensures var r := AddProvider(providers, names, pkg);
            && (x in r <==> x in providers || x in names)
            && (x in r ==> (p in r[x] <==> (x in providers && p in providers[x]) || (x in names && p == pkg)))
    decreases names
  {
    if names != [] {
      var before := if names[0] in providers then providers[names[0]] else [];
      AddProviderAdds(providers[names[0] := before + [pkg]], names[1..], pkg, x, p);
    }
  }

  predicate Names(pkg: Package, x: string) { pkg.name == x || x in pkg.offers }

  lemma {:induction false} FiledNames(list: seq<Package>, x: string)
    ensures x in FileAll(list).providers <==> exists k :: 0 <= k < |list| && Names(list[k], x)
  {
    if list != [] {
      var n := |list| - 1;
      var front := list[..n];
      FiledNames(front, x);
      AddProviderAdds(FileAll(front).providers, Provided(FileAll(front), list[n]), list[n], x, list[n]);
      if k :| 0 <= k < |front| && Names(front[k], x) { assert Names(list[k], x); }
      if k :| 0 <= k < |list| && Names(list[k], x) { assert k < n ==> Names(front[k], x); }
    }
  }

  /** The k-th package of the list is filed as a provider of x. */
  ghost predicate FiledUnder(list: seq<Package>, k: nat, x: string)
    requires k < |list|
  {
    x in list[k].offers || (x == list[k].name && forall j :: 0 <= j < k ==> !Names(list[j], x))
  }

  lemma FiledOneMore(list: seq<Package>, front: seq<Package>, n: nat, x: string, p: Package)
    requires |list| == n + 1 && front == list[..n]
    ensures (exists k :: 0 <= k < |list| && list[k] == p && FiledUnder(list, k, x)) <==>
            (exists k :: 0 <= k < n && front[k] == p && FiledUnder(front, k, x)) || (list[n] == p && FiledUnder(list, n, x))
  {
    hide Names;
    forall k | 0 <= k < n ensures front[k] == list[k] && (FiledUnder(front, k, x) <==> FiledUnder(list, k, x)) {
      assert forall j :: 0 <= j < k ==> front[j] == list[j];
    }
  }

  lemma LastFiled(list: seq<Package>, front: seq<Package>, n: nat, x: string)
    requires |list| == n + 1 && front == list[..n]
    ensures FiledUnder(list, n, x) <==> x in Provided(FileAll(front), list[n])
  {
    FiledNames(front, list[n].name);
    hide FileAll, Names;
    assert forall j :: 0 <= j < n ==> front[j] == list[j];
  }

  /**
   * Exactly who provides a name: the packages that say so, and the package of that name itself only when it
   * comes before every other package that has or provides the name.
   */
  lemma {:induction false} FiledProviders(list: seq<Package>, x: string, p: Package)
    ensures p in ProvidersOf(FileAll(list), x) <==> exists k :: 0 <= k < |list| && list[k] == p && FiledUnder(list, k, x)
  {
    if list == [] {
    } else {
      var n := |list| - 1;
      var front := list[..n];
      var ix := FileAll(front);
      FiledProviders(front, x, p);
      AddProviderAdds(ix.providers, Provided(ix, list[n]), list[n], x, p);
      assert FileAll(list).providers == AddProvider(ix.providers, Provided(ix, list[n]), list[n]);
      hide FileAll, AddProvider, Provided, FiledUnder;
      LastFiled(list, front, n, x);
      FiledOneMore(list, front, n, x, p);
    }
  }

  /** Every provider is a listed package, and its name leads to a package of that name. */
  ghost predicate WellFiled(ix: Index) {
    && (forall x, p :: p in ProvidersOf(ix, x) ==> p.name in ix.pkgs)
    && forall n :: n in ix.pkgs ==> ix.pkgs[n].name == n
  }

  lemma {:induction false} FileAllWellFiled(list: seq<Package>)
    ensures WellFiled(FileAll(list))
  {
    if list != [] {
      var n := |list| - 1;
      var front := FileAll(list[..n]);
      FileAllWellFiled(list[..n]);
      forall x, p | p in ProvidersOf(FileAll(list), x) ensures p.name in FileAll(list).pkgs {
        AddProviderAdds(front.providers, Provided(front, list[n]), list[n], x, p);
        assert p == list[n] || p in ProvidersOf(front, x);
      }
    }
  }

  lemma {:induction false} AddsLast(providers: map<string, seq<Package>>, names: seq<string>, pkg: Package, x: string)
    ensures var a, r := if x in providers then providers[x] else [], AddProvider(providers, names, pkg);
            var b := if x in r then r[x] else [];
            a <= b && forall i :: |a| <= i < |b| ==> b[i] == pkg
    decreases names
  {
    if names != [] {
      var before := if names[0] in providers then providers[names[0]] else [];
      AddsLast(providers[names[0] := before + [pkg]], names[1..], pkg, x);
    }
  }

  /** One more package comes after all providers that were filed before, and is the one that its name leads to. */
  lemma FiledLast(list: seq<Package>, pkg: Package, x: string)
    ensures var a, b := ProvidersOf(FileAll(list), x), ProvidersOf(FileAll(list + [pkg]), x);
            a <= b && forall i :: |a| <= i < |b| ==> b[i] == pkg
    ensures FileAll(list + [pkg]).pkgs.Keys == FileAll(list).pkgs.Keys + {pkg.name}
    ensures x in FileAll(list + [pkg]).pkgs ==> FileAll(list + [pkg]).pkgs[x] == if x == pkg.name then pkg else FileAll(list).pkgs[x]
  {
    var ix := FileAll(list);
    assert (list + [pkg])[..|list|] == list;
    assert FileAll(list + [pkg]) == FilePackage(ix, pkg);
    AddsLast(ix.providers, Provided(ix, pkg), pkg, x);
    hide FileAll, AddProvider;
  }
}
