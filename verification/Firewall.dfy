/** Zones and forwardings: every operation keeps the references between the firewall sections intact. */
module Firewall {
  import opened Common
  import opened UciState
  import opened UciRuns
  import opened UciOrder
  import opened FirewallRows

  // ---- Intact references --------------------------------------------------------------------

  predicate IsZone(rows: Rows, s: string) { HasType(rows, s, "zone") }

  predicate IsForwarding(rows: Rows, s: string) { HasType(rows, s, "forwarding") }

  function ZoneName(rows: Rows, s: string): Option<Value> { Get(rows, s, "name") }

  ghost predicate ZoneNamed(rows: Rows, name: Option<Value>) {
    exists z :: IsZone(rows, z) && ZoneName(rows, z) == name
  }

  predicate IsText(v: Option<Value>) { v.Some? && v.value.Str? && v.value.text != "" }

  function Ends(rows: Rows, f: string): (Option<Value>, Option<Value>) { (Get(rows, f, "src"), Get(rows, f, "dest")) }

  /** Zones are named, and no two alike. */
  ghost predicate ZonesDistinct(rows: Rows) {
    && (forall z :: IsZone(rows, z) ==> IsText(ZoneName(rows, z)))
    && forall z, y :: IsZone(rows, z) && IsZone(rows, y) && ZoneName(rows, z) == ZoneName(rows, y) ==> z == y
  }

  /** Every forwarding joins two different zones that exist. */
  ghost predicate ForwardingsJoin(rows: Rows) {
    forall f :: IsForwarding(rows, f) ==>
      var (src, dest) := Ends(rows, f);
      IsText(src) && IsText(dest) && src != dest && ZoneNamed(rows, src) && ZoneNamed(rows, dest)
  }

  /** No pair of zones is joined twice in the same direction. */
  ghost predicate PairsDistinct(rows: Rows) {
    forall f, g :: IsForwarding(rows, f) && IsForwarding(rows, g) && Ends(rows, f) == Ends(rows, g) ==> f == g
  }

  ghost predicate Intact(rows: Rows) { ZonesDistinct(rows) && ForwardingsJoin(rows) && PairsDistinct(rows) }

  predicate RefersByType(sec: Section) {
    var typ := Opt(sec, ".type");
    typ == Some(Str("rule")) || typ == Some(Str("redirect")) || typ == Some(Str("forwarding"))
  }

  /** A rule, redirect or forwarding whose source or destination is `name`. */
  predicate RefersTo(sec: Section, name: Option<Value>) {
    RefersByType(sec) && (Opt(sec, "src") == name || Opt(sec, "dest") == name)
  }

  // ---- lookupZone ---------------------------------------------------------------------------

  predicate IsZoneName(name: string) { name != "" && forall c :: c in name ==> IsWordChar(c) }

  /** The zone that `lookupZone` means by a name: the zone section called so, else a zone with that name option. */
  predicate Finds(rows: Rows, name: string, z: string) {
    IsZone(rows, z) && if IsZone(rows, name) then z == name else ZoneName(rows, z) == Some(Str(name))
  }

  /** The zone section called `name`, else the first zone whose name option is `name`. */
  method LookupZone(fw: Rules, name: string) returns (z: Option<string>)
    requires fw.Valid()
    modifies fw, fw.uci
    ensures fw.Valid() && fw.rows == old(fw.rows) && fw.taken == old(fw.taken)
    ensures z.Some? ==> IsZone(fw.rows, z.value) && PlainName(z.value)
    ensures z.None? ==> !ZoneNamed(fw.rows, Some(Str(name))) && (IsPlain(name) ==> !IsZone(fw.rows, name))
    ensures IsPlain(name) && z.Some? ==> Finds(fw.rows, name, z.value)
  {
    hide Rules.Valid;
    var sec := fw.Section(name);
    if sec.Some? && Opt(sec.value, ".type") == Some(Str("zone")) {
      var again := fw.Section(NameOf(sec.value));
      return Some(NameOf(sec.value));
    }
    var sa;
    ghost var names;
    sa, names := fw.Sections("zone");
    for i := 0 to |sa|
      invariant fw.Valid() && fw.rows == old(fw.rows) && fw.taken == old(fw.taken)
      invariant forall j :: 0 <= j < i ==> ZoneName(fw.rows, names[j]) != Some(Str(name))
    {
      assert IsCopy(fw.rows, "zone", sa[i], names[i]);
      if Opt(sa[i], "name") == Some(Str(name)) {
        var again := fw.Section(NameOf(sa[i]));
        return Some(NameOf(sa[i]));
      }
    }
    assert forall s :: IsZone(fw.rows, s) ==> s in names;
    return None;
  }

  // ---- addZone ------------------------------------------------------------------------------

  function Upper(c: char): char { if 'a' <= c <= 'z' then c - 'a' + 'A' else c }

  function UpperCase(s: string): string { seq(|s|, i requires 0 <= i < |s| => Upper(s[i])) }

  /** `parsePolicy(v, 'DROP')`: the first policy that the upper-cased text is a prefix of. */
  function ParsePolicy(v: Option<Value>): string {
    var s := if v.Some? && v.value.Str? then UpperCase(v.value.text) else "";
    if s == "" || s <= "DROP" then "DROP" else if s <= "REJECT" then "REJECT" else if s <= "ACCEPT" then "ACCEPT" else "DROP"
  }

  /** The text is a beginning of the word, in any mixture of upper and lower case. */
  predicate Abbreviates(text: string, upper: string, lower: string)
    requires |upper| == |lower|
  {
    0 < |text| <= |upper| && forall i :: 0 <= i < |text| ==> text[i] == upper[i] || text[i] == lower[i]
  }

  /** "re" is REJECT and "Accept" is ACCEPT; all that is no such abbreviation is DROP. */
  lemma PolicyTexts(v: Option<Value>)
    ensures ParsePolicy(v) ==
              if v.Some? && v.value.Str? && Abbreviates(v.value.text, "REJECT", "reject") then "REJECT"
              else if v.Some? && v.value.Str? && Abbreviates(v.value.text, "ACCEPT", "accept") then "ACCEPT"
              else "DROP"
  {
    if v.Some? && v.value.Str? {
      var text := v.value.text;
      UpperPrefix(text, "DROP", "drop");
      UpperPrefix(text, "REJECT", "reject");
      UpperPrefix(text, "ACCEPT", "accept");
      assert |UpperCase(text)| == |text|;
      hide UpperCase;
      FirstLetters(text);
    }
  }

  lemma UpperPrefix(text: string, upper: string, lower: string)
    requires |upper| == |lower| && forall i :: 0 <= i < |upper| ==> 'A' <= upper[i] <= 'Z' && Upper(lower[i]) == upper[i]
    requires forall i :: 0 <= i < |lower| ==> 'a' <= lower[i] <= 'z'
    ensures text != "" && UpperCase(text) <= upper <==> Abbreviates(text, upper, lower)
  {
    var s := UpperCase(text);
    if s <= upper {
      forall i | 0 <= i < |text| ensures text[i] == upper[i] || text[i] == lower[i] { assert s[i] == upper[i]; }
    }
    if Abbreviates(text, upper, lower) {
      forall i | 0 <= i < |text| ensures s[i] == upper[i] {}
    }
  }

  lemma FirstLetters(text: string)
    ensures Abbreviates(text, "DROP", "drop") ==>
              !Abbreviates(text, "REJECT", "reject") && !Abbreviates(text, "ACCEPT", "accept")
    ensures Abbreviates(text, "REJECT", "reject") ==> !Abbreviates(text, "ACCEPT", "accept")
  {
    assert Abbreviates(text, "DROP", "drop") ==> text[0] == 'D' || text[0] == 'd';
    assert Abbreviates(text, "REJECT", "reject") ==> text[0] == 'R' || text[0] == 'r';
    assert Abbreviates(text, "ACCEPT", "accept") ==> text[0] == 'A' || text[0] == 'a';
  }

  /** The table has a defaults section d, and one was added only if there was none. */
  ghost predicate WithDefaults(rows: Rows, rows': Rows, d: string) {
    && HasType(rows', d, "defaults")
    && if exists s :: HasType(rows, s, "defaults") then rows' == rows
       else d !in rows && exists index :: rows' == rows[d := NewSection("defaults", d, false, index)]
  }

  /** A defaults section; one is added when there is none. */
  method Defaults(fw: Rules, chosen: string) returns (d: string)
    requires fw.Valid() && chosen !in fw.taken && PlainName(chosen)
    modifies fw, fw.uci
    ensures fw.Valid() && PlainName(d) && fw.taken <= old(fw.taken) + {chosen}
    ensures WithDefaults(old(fw.rows), fw.rows, d) && (fw.rows != old(fw.rows) ==> d == chosen)
  {
    var sa;
    ghost var names;
    sa, names := fw.Sections("defaults");
    if |sa| > 0 {
      assert IsCopy(fw.rows, "defaults", sa[0], names[0]);
      return NameOf(sa[0]);
    }
    ghost var index := fw.Add("defaults", chosen);
    return chosen;
  }

  /** `new.set(opt, d.get...())` for one policy. */
  method CopyPolicy(fw: Rules, d: string, z: string, opt: string)
    requires fw.Valid() && PlainName(d) && z in fw.rows && !Dotted(opt)
    modifies fw, fw.uci
    ensures fw.Valid() && fw.taken == old(fw.taken)
    ensures fw.rows == old(fw.rows)[z := old(fw.rows)[z][opt := Str(ParsePolicy(Get(old(fw.rows), d, opt)))]]
  {
    var policy := fw.Option(d, opt);
    fw.Put(z, opt, ParsePolicy(policy));
  }

  function NewZone(z: string, index: int, name: string, d: Section): Section {
    NewSection("zone", z, false, index)["name" := Str(name)]["input" := Str(ParsePolicy(Opt(d, "input")))]
      ["output" := Str(ParsePolicy(Opt(d, "output")))]["forward" := Str(ParsePolicy(Opt(d, "forward")))]
  }

  /** A zone of the name, with the three policies of the defaults. */
  ghost predicate IsNewZone(rows: Rows, z: string, name: string, mid: Rows, d: string) {
    && HasType(rows, z, "zone") && Get(rows, z, "name") == Some(Str(name))
    && Get(rows, z, "input") == Some(Str(ParsePolicy(Get(mid, d, "input"))))
    && Get(rows, z, "output") == Some(Str(ParsePolicy(Get(mid, d, "output"))))
    && Get(rows, z, "forward") == Some(Str(ParsePolicy(Get(mid, d, "forward"))))
  }

  lemma NewZoneReads(mid: Rows, z: string, index: int, name: string, d: string)
    requires d in mid
    ensures IsNewZone(mid[z := NewZone(z, index, name, mid[d])], z, name, mid, d)
  {
    hide ParsePolicy;
  }

  method AddZone(fw: Rules, name: string, chosen: string, chosenDefaults: string)
    returns (z: Option<string>, ghost d: string, ghost mid: Rows, ghost index: int)
    requires fw.Valid() && chosen !in fw.taken && chosenDefaults !in fw.taken && chosen != chosenDefaults
    requires PlainName(chosen) && PlainName(chosenDefaults)
    modifies fw, fw.uci
    ensures fw.Valid() && fw.taken <= old(fw.taken) + {chosen, chosenDefaults}
    ensures z.Some? <==> name != "" && (forall c :: c in name ==> IsWordChar(c))
                         && !IsZone(old(fw.rows), name) && !ZoneNamed(old(fw.rows), Some(Str(name)))
    ensures z.None? ==> fw.rows == old(fw.rows)
    ensures z.Some? ==> z.value == chosen && WithDefaults(old(fw.rows), mid, d) && chosen !in mid
                        && fw.rows == mid[chosen := NewZone(chosen, index, name, mid[d])]
    ensures z.Some? ==> IsNewZone(fw.rows, z.value, name, mid, d)
  {
    hide Rules.Valid, NewZone, IsNewZone;
    d, mid, index := "", map[], 0;
    if !IsZoneName(name) { return None, d, mid, index; }
    assert name[0] in name;
    var other := LookupZone(fw, name);
    if other.Some? { return None, d, mid, index; }
    var ds := Defaults(fw, chosenDefaults);
    d, mid := ds, fw.rows;
    index := AddZoneSection(fw, ds, chosen, name);
    NewZoneReads(mid, chosen, index, name, d);
    return Some(chosen), d, mid, index;
  }

  method AddZoneSection(fw: Rules, d: string, chosen: string, name: string) returns (ghost index: int)
    requires fw.Valid() && chosen !in fw.taken && PlainName(chosen) && PlainName(d) && d in fw.rows && name != ""
    modifies fw, fw.uci
    ensures fw.Valid() && chosen !in old(fw.rows) && fw.taken == old(fw.taken) + {chosen}
    ensures fw.rows == old(fw.rows)[chosen := NewZone(chosen, index, name, old(fw.rows)[d])]
  {
    ghost var mid := fw.rows;
    index := fw.Add("zone", chosen);
    fw.Put(chosen, "name", name);
    ghost var sec := NewSection("zone", chosen, false, index)["name" := Str(name)];
    assert fw.rows == mid[chosen := sec];
    CopyPolicies(fw, d, chosen, mid, sec);
  }

  method CopyPolicies(fw: Rules, d: string, z: string, ghost mid: Rows, ghost sec: Section)
    requires fw.Valid() && PlainName(d) && d in mid && z !in mid && fw.rows == mid[z := sec]
    modifies fw, fw.uci
    ensures fw.Valid() && fw.taken == old(fw.taken)
    ensures fw.rows == mid[z := sec["input" := Str(ParsePolicy(Opt(mid[d], "input")))]
                                   ["output" := Str(ParsePolicy(Opt(mid[d], "output")))]
                                   ["forward" := Str(ParsePolicy(Opt(mid[d], "forward")))]]
  {
    hide Rules.Valid, ParsePolicy;
    ghost var input, output := Str(ParsePolicy(Opt(mid[d], "input"))), Str(ParsePolicy(Opt(mid[d], "output")));
    CopyPolicy(fw, d, z, "input");
    assert fw.rows == mid[z := sec["input" := input]];
    CopyPolicy(fw, d, z, "output");
    assert fw.rows == mid[z := sec["input" := input]["output" := output]];
    CopyPolicy(fw, d, z, "forward");
  }

  /** A section that is neither a zone nor a forwarding changes no reference. */
  lemma OtherKeepsIntact(rows: Rows, c: string, sec: Section)
    requires Intact(rows) && c !in rows
    requires Opt(sec, ".type") != Some(Str("zone")) && Opt(sec, ".type") != Some(Str("forwarding"))
    ensures Intact(rows[c := sec]) && forall v :: ZoneNamed(rows[c := sec], v) <==> ZoneNamed(rows, v)
  {
    var rows' := rows[c := sec];
    forall s ensures IsZone(rows', s) <==> IsZone(rows, s)
      ensures IsForwarding(rows', s) <==> IsForwarding(rows, s)
      ensures IsZone(rows, s) || IsForwarding(rows, s) ==> s in rows && rows'[s] == rows[s] {}
    forall v ensures ZoneNamed(rows', v) <==> ZoneNamed(rows, v) {
      if z :| IsZone(rows, z) && ZoneName(rows, z) == v { assert IsZone(rows', z) && ZoneName(rows', z) == v; }
      if z :| IsZone(rows', z) && ZoneName(rows', z) == v { assert IsZone(rows, z) && ZoneName(rows, z) == v; }
    }
  }

  lemma NewZoneKeepsIntact(rows: Rows, c: string, sec: Section, name: string)
    requires Intact(rows) && c !in rows && Opt(sec, ".type") == Some(Str("zone")) && Opt(sec, "name") == Some(Str(name))
    requires name != "" && !ZoneNamed(rows, Some(Str(name)))
    ensures Intact(rows[c := sec]) && ZoneNamed(rows[c := sec], Some(Str(name)))
  {
    var rows' := rows[c := sec];
    assert IsZone(rows', c) && ZoneName(rows', c) == Some(Str(name));
    forall s | s != c ensures IsZone(rows', s) <==> IsZone(rows, s)
      ensures IsZone(rows, s) ==> ZoneName(rows', s) == ZoneName(rows, s) {}
    forall f ensures IsForwarding(rows', f) <==> IsForwarding(rows, f)
      ensures IsForwarding(rows, f) ==> Ends(rows', f) == Ends(rows, f) {}
    forall v | ZoneNamed(rows, v) ensures ZoneNamed(rows', v) {
      var z :| IsZone(rows, z) && ZoneName(rows, z) == v;
      assert IsZone(rows', z) && ZoneName(rows', z) == v;
    }
  }

  lemma AddZoneKeepsIntact(rows: Rows, mid: Rows, d: string, chosen: string, index: int, name: string)
    requires Intact(rows) && WithDefaults(rows, mid, d) && chosen !in mid && name != ""
    requires !ZoneNamed(rows, Some(Str(name)))
    ensures var rows' := mid[chosen := NewZone(chosen, index, name, mid[d])];
            Intact(rows') && ZoneNamed(rows', Some(Str(name)))
  {
    if mid != rows {
      var i :| mid == rows[d := NewSection("defaults", d, false, i)];
      OtherKeepsIntact(rows, d, NewSection("defaults", d, false, i));
    }
    var sec := NewZone(chosen, index, name, mid[d]);
    assert Opt(sec, ".type") == Some(Str("zone")) && Opt(sec, "name") == Some(Str(name));
    hide Intact, NewZone, WithDefaults;
    NewZoneKeepsIntact(mid, chosen, sec, name);
  }

  // ---- deleteZone ---------------------------------------------------------------------------

  /** Without the zones and without what refers to them. */
  function AfterDelete(rows: Rows, zones: set<string>, key: Option<Value>): Rows {
    map s | s in rows && s !in zones && !RefersTo(rows[s], key) :: rows[s]
  }

  /** `key` is the name the references are compared with: none at all for a section without a name option. */
  method DeleteZone(fw: Rules, name: string) returns (found: bool, ghost zones: set<string>, ghost key: Option<Value>)
    requires fw.Valid()
    modifies fw, fw.uci
    ensures fw.Valid() && fw.taken == old(fw.taken)
    ensures found <==> zones != {}
    ensures forall z :: z in zones ==> IsZone(old(fw.rows), z) && ZoneName(old(fw.rows), z) == key
    ensures IsPlain(name) ==>
              if IsZone(old(fw.rows), name) then zones == {name}
              else key == Some(Str(name)) && forall z :: IsZone(old(fw.rows), z) && ZoneName(old(fw.rows), z) == key ==> z in zones
    ensures fw.rows == if found then AfterDelete(old(fw.rows), zones, key) else old(fw.rows)
    ensures found ==> KeepsOthers(old(fw.rows), fw.rows, zones, key)
  {
    hide Rules.Valid;
    var sec := fw.Section(name);
    var compare: Option<Value>;
    if sec.Some? && Opt(sec.value, ".type") == Some(Str("zone")) {
      compare := Opt(sec.value, "name");
      zones := {NameOf(sec.value)};
      found := true;
      fw.Remove(NameOf(sec.value));
    } else {
      compare := Some(Str(name));
      found, zones := RemoveZonesNamed(fw, name);
    }
    key := compare;
    ghost var mid := fw.rows;
    if found {
      RemoveReferences(fw, compare);
      assert fw.rows == AfterDelete(old(fw.rows), zones, key);
      DeleteKeepsOthers(old(fw.rows), zones, key);
    }
  }

  predicate IsReference(sec: Section) {
    ".type" in sec && (sec[".type"] == Str("rule") || sec[".type"] == Str("redirect") || sec[".type"] == Str("forwarding"))
  }

  /** The zones are gone, and of the rules, redirects and forwardings those with such an end; the others are as before. */
  ghost predicate KeepsOthers(rows: Rows, rows': Rows, zones: set<string>, key: Option<Value>) {
    && (forall s :: s in rows' <==> s in rows && s !in zones
                                    && !(IsReference(rows[s]) && (Opt(rows[s], "src") == key || Opt(rows[s], "dest") == key)))
    && forall s :: s in rows' ==> rows'[s] == rows[s]
  }

  lemma DeleteKeepsOthers(rows: Rows, zones: set<string>, key: Option<Value>)
    ensures KeepsOthers(rows, AfterDelete(rows, zones, key), zones, key)
  {
  }

  method RemoveZonesNamed(fw: Rules, name: string) returns (found: bool, ghost zones: set<string>)
    requires fw.Valid()
    modifies fw, fw.uci
    ensures fw.Valid() && fw.taken == old(fw.taken) && (found <==> zones != {}) && fw.rows == old(fw.rows) - zones
    ensures forall z :: z in zones <==> IsZone(old(fw.rows), z) && ZoneName(old(fw.rows), z) == Some(Str(name))
  {
    hide Rules.Valid;
    var sa;
    ghost var names;
    sa, names := fw.Sections("zone");
    found, zones := false, {};
    ghost var rows := fw.rows;
    for i := 0 to |sa|
      invariant fw.Valid() && fw.taken == old(fw.taken) && (found <==> zones != {}) && fw.rows == rows - zones
      invariant forall z :: z in zones <==> z in names[..i] && ZoneName(rows, z) == Some(Str(name))
    {
      assert IsCopy(rows, "zone", sa[i], names[i]);
      if Opt(sa[i], "name") == Some(Str(name)) {
        found, zones := true, zones + {names[i]};
        fw.Remove(NameOf(sa[i]));
      }
      assert names[..i + 1] == names[..i] + [names[i]];
    }
    assert names[..|sa|] == names;
  }

  method RemoveReferences(fw: Rules, key: Option<Value>)
    requires fw.Valid()
    modifies fw, fw.uci
    ensures fw.Valid() && fw.taken == old(fw.taken) && fw.rows == AfterDelete(old(fw.rows), {}, key)
  {
    hide Rules.Valid;
    var sa;
    ghost var names;
    sa, names := fw.Sections("");
    ghost var rows := fw.rows;
    for i := 0 to |sa|
      invariant fw.Valid() && fw.taken == old(fw.taken)
      invariant forall s :: s in fw.rows ==> s in rows && fw.rows[s] == rows[s]
      invariant forall s :: s in rows ==> s in fw.rows || RefersTo(rows[s], key)
      invariant forall j :: 0 <= j < i && RefersTo(rows[names[j]], key) ==> names[j] !in fw.rows
    {
      assert IsCopy(rows, "", sa[i], names[i]);
      if RefersByType(sa[i]) && (Opt(sa[i], "src") == key || Opt(sa[i], "dest") == key) {
        fw.Remove(NameOf(sa[i]));
      }
    }
  }

  /** Deleting a named zone keeps all references intact and leaves none to the zone. */
  lemma DeleteKeepsIntact(rows: Rows, zones: set<string>, key: Option<Value>)
    requires Intact(rows) && zones != {} && forall z :: z in zones ==> IsZone(rows, z) && ZoneName(rows, z) == key
    ensures var rows' := AfterDelete(rows, zones, key);
            && Intact(rows') && !ZoneNamed(rows', key)
            && forall s :: s in rows' ==> !RefersTo(rows'[s], key)
  {
    var rows' := AfterDelete(rows, zones, key);
    var gone :| gone in zones;
    assert forall z :: IsZone(rows', z) ==> IsZone(rows, z) && ZoneName(rows', z) == ZoneName(rows, z) && z != gone;
    forall v | ZoneNamed(rows, v) && v != key ensures ZoneNamed(rows', v) {
      var z :| IsZone(rows, z) && ZoneName(rows, z) == v;
      assert IsZone(rows', z) && ZoneName(rows', z) == v;
    }
    forall f | IsForwarding(rows', f) ensures IsForwarding(rows, f) && Ends(rows', f) == Ends(rows, f) {}
  }

  /** A zone section without a name option takes every rule with it that lacks a source or a destination. */
  lemma UnnamedZoneTakesRules(rows: Rows, z: string, s: string)
    requires IsZone(rows, z) && ZoneName(rows, z) == None
    requires s in rows && RefersByType(rows[s]) && (Get(rows, s, "src") == None || Get(rows, s, "dest") == None)
    ensures s !in AfterDelete(rows, {z}, ZoneName(rows, z))
  {
  }

  /**
   * Besides the zone, only references to it are deleted if and only if the zone has a name or no other rule,
   * redirect or forwarding lacks an end.
   */
  lemma DeletesOnlyReferences(rows: Rows, z: string, key: Option<Value>)
    requires IsZone(rows, z) && key == ZoneName(rows, z)
    ensures (forall s :: s in rows && s != z && s !in AfterDelete(rows, {z}, key) ==>
               key.Some? && RefersTo(rows[s], key)) <==>
            key.Some? || forall s :: s in rows && s != z && RefersByType(rows[s]) ==>
                           Get(rows, s, "src").Some? && Get(rows, s, "dest").Some?
  {
    if key.None? {
      forall s | s in rows && s != z
        ensures s !in AfterDelete(rows, {z}, key) <==>
                RefersByType(rows[s]) && !(Get(rows, s, "src").Some? && Get(rows, s, "dest").Some?) {}
    }
  }

  // ---- Ends whose deletion is pending ---------------------------------------------------------

  /** An end that was unset, but is still listed with the zone's name, makes a reference of the section. */
  predicate StaleReference(e: Entry, sec: Section, key: Value) {
    && RefersByType(sec) && !RefersTo(sec, Some(key))
    && ((Stale(e, "src") && e.loaded.value["src"] == key) || (Stale(e, "dest") && e.loaded.value["dest"] == key))
  }

  /** The scan for references in a listing finds those that are read if and only if there is no such end. */
  lemma ScanIsReferences(st: State, rows: Rows, sa: seq<Section>, key: Value)
    requires Inv(st) && CONF in st.values && Shows(st, rows) && IsListing(st, CONF, "", sa)
    ensures forall i {:trigger sa[i]} :: 0 <= i < |sa| ==> NameOf(sa[i]) in rows
    ensures (forall i {:trigger sa[i]} :: 0 <= i < |sa| ==>
               (RefersTo(sa[i], Some(key)) <==> RefersTo(rows[NameOf(sa[i])], Some(key)))) <==>
            !exists s :: s in rows && StaleReference(EntryAt(st, CONF, s), rows[s], key)
  {
    forall i | 0 <= i < |sa|
      ensures NameOf(sa[i]) in rows
      ensures (RefersTo(sa[i], Some(key)) <==> RefersTo(rows[NameOf(sa[i])], Some(key))) <==>
              !StaleReference(EntryAt(st, CONF, NameOf(sa[i])), rows[NameOf(sa[i])], key)
    {
      ListedAt(st, rows, sa, i);
      ListedReference(EntryAt(st, CONF, NameOf(sa[i])), NameOf(sa[i]), sa[i], i, key);
    }
    forall s | s in rows && StaleReference(EntryAt(st, CONF, s), rows[s], key)
      ensures exists i :: 0 <= i < |sa| && NameOf(sa[i]) == s
    {
      var i := IsListed(st, rows, sa, s);
    }
  }

  lemma ListedReference(e: Entry, s: string, sec: Section, i: int, key: Value)
    requires e.Inv(s) && e.Shown().Some? && sec == Listed(e)[".index" := Num(i)]
    ensures (RefersTo(sec, Some(key)) <==> RefersTo(e.Shown().value, Some(key))) <==> !StaleReference(e, e.Shown().value, key)
  {
    assert Dotted(".type");
    ListedIsSection(e, s);
    ListedIsRead(e, s, "src", key);
    ListedIsRead(e, s, "dest", key);
  }

  /**
   * Such ends do occur: unset the destination of a rule.  It is read as missing, but the rule is still listed with
   * it: deleting the zone takes the rule, renaming the zone sets the destination again.
   */
  lemma UnsetEndIsListed(st: State, rows: Rows, r: string, key: Value, st': State, rows': Rows, sa: seq<Section>)
    requires Inv(st) && CONF in st.values && Shows(st, rows) && r in rows && RefersByType(rows[r])
    requires var e := EntryAt(st, CONF, r);
             && e.loaded.Some? && e.created.None? && e.changed.None? && e.deleted.None?
             && Opt(e.loaded.value, "dest") == Some(key) && Opt(e.loaded.value, "src") != Some(key)
    requires st' == UciRuns.SetOption(st, CONF, r, "dest", None) && Shows(st', rows')
    requires IsListing(st', CONF, "", sa)
    ensures r in rows' && !RefersTo(rows'[r], Some(key)) && StaleReference(EntryAt(st', CONF, r), rows'[r], key)
    ensures exists i :: 0 <= i < |sa| && NameOf(sa[i]) == r && RefersTo(sa[i], Some(key)) && Opt(sa[i], "dest") == Some(key)
  {
    var e, unset := EntryAt(st, CONF, r), Op.Set(CONF, r, "dest", None);
    StepInv(st, unset);
    StepEntries(st, unset, CONF, r);
    UnsetEntry(e, r, "dest", key);
    hide UciRuns.SetOption, Entry.With, Entry.Inv, Stepped;
    assert Shown(st, CONF, r) == Some(rows[r]) && Dotted(".type");
    assert Shown(st', CONF, r) == if r in rows' then Some(rows'[r]) else None;
    var i := IsListed(st', rows', sa, r);
    ListedAt(st', rows', sa, i);
  }

  lemma UnsetEntry(e: Entry, s: string, opt: string, v: Value)
    requires e.Inv(s) && e.loaded.Some? && e.created.None? && e.changed.None? && e.deleted.None?
    requires !Dotted(opt) && Opt(e.loaded.value, opt) == Some(v)
    ensures var e' := e.With(opt, None);
            Stale(e', opt) && e'.loaded == e.loaded == e.Shown() && Listed(e') == e.loaded.value
            && e'.Shown() == Some(e.loaded.value - {opt}) && forall o :: Stale(e', o) ==> o == opt
  {
    var e' := e.With(opt, None);
    assert e.Deletions() + {opt} == {opt};
    assert e' == e.(deleted := Some(Options({opt})));
    assert e.loaded.value + map[] - {opt} == e.loaded.value - {opt};
    assert e.loaded.value + map[] - {} == e.loaded.value;
  }

  // ---- renameZone ---------------------------------------------------------------------------

  function Replace(sec: Section, opt: string, from: string, to: string): Section {
    if Opt(sec, opt) == Some(Str(from)) then sec[opt := Str(to)] else sec
  }

  function Renamed(sec: Section, from: string, to: string): Section {
    if Opt(sec, ".type") == Some(Str("zone")) then Replace(sec, "name", from, to)
    else RenamedEnds(sec, from, to)
  }

  function AfterRename(rows: Rows, from: string, to: string): Rows { map s | s in rows :: Renamed(rows[s], from, to) }

  method RenameZone(fw: Rules, from: string, to: string) returns (found: bool)
    requires fw.Valid()
    modifies fw, fw.uci
    ensures fw.Valid() && fw.taken == old(fw.taken)
    ensures found <==> to != "" && (forall c :: c in to ==> IsWordChar(c))
                       && !IsZone(old(fw.rows), to) && !ZoneNamed(old(fw.rows), Some(Str(to)))
                       && ZoneNamed(old(fw.rows), Some(Str(from)))
    ensures fw.rows == if found then AfterRename(old(fw.rows), from, to) else old(fw.rows)
    ensures found ==> RenamesAll(old(fw.rows), fw.rows, from, to)
  {
    if !IsZoneName(to) { return false; }
    assert to[0] in to;
    var other := LookupZone(fw, to);
    if other.Some? { return false; }
    ghost var rows := fw.rows;
    found := RenameZones(fw, from, to);
    if found {
      ghost var mid := fw.rows;
      RenameReferences(fw, from, to);
      TwoPasses(rows, mid, fw.rows, from, to);
      RenameIsExact(rows, from, to);
    } else {
      assert fw.rows == rows by {
        forall s | s in rows ensures fw.rows[s] == rows[s] { assert IsZone(rows, s) ==> ZoneName(rows, s) != Some(Str(from)); }
      }
    }
  }

  /** The name of zones and both ends of rules, redirects and forwardings take the new name; nothing else changes. */
  ghost predicate RenamesAll(rows: Rows, rows': Rows, from: string, to: string) {
    && rows'.Keys == rows.Keys
    && forall s, o :: Get(rows', s, o) ==
         if Get(rows, s, o) == Some(Str(from)) &&
            ((HasType(rows, s, "zone") && o == "name") || (s in rows && IsReference(rows[s]) && (o == "src" || o == "dest")))
         then Some(Str(to)) else Get(rows, s, o)
  }

  lemma RenameIsExact(rows: Rows, from: string, to: string)
    ensures RenamesAll(rows, AfterRename(rows, from, to), from, to)
  {
  }

  lemma TwoPasses(rows: Rows, mid: Rows, rows': Rows, from: string, to: string)
    requires rows.Keys == mid.Keys == rows'.Keys
    requires forall s :: s in mid ==> mid[s] == if IsZone(rows, s) then Replace(rows[s], "name", from, to) else rows[s]
    requires forall s :: s in rows' ==> rows'[s] == RenamedEnds(mid[s], from, to)
    ensures rows' == AfterRename(rows, from, to)
  {
    forall s | s in rows ensures rows'[s] == Renamed(rows[s], from, to) {}
  }

  method RenameZones(fw: Rules, from: string, to: string) returns (found: bool)
    requires fw.Valid() && to != ""
    modifies fw, fw.uci
    ensures fw.Valid() && fw.taken == old(fw.taken) && fw.rows.Keys == old(fw.rows).Keys
    ensures found <==> ZoneNamed(old(fw.rows), Some(Str(from)))
    ensures forall s :: s in fw.rows ==>
              fw.rows[s] == if IsZone(old(fw.rows), s) then Replace(old(fw.rows)[s], "name", from, to) else old(fw.rows)[s]
  {
    hide Rules.Valid;
    var sa;
    ghost var names;
    sa, names := fw.Sections("zone");
    found := false;
    ghost var rows := fw.rows;
    assert RenamedUpTo(rows, fw.rows, names, 0, from, to) && !NamedUpTo(rows, names, 0, from);
    hide RenamedUpTo, NamedUpTo, Replace;
    for i := 0 to |sa|
      invariant fw.Valid() && fw.taken == old(fw.taken) && RenamedUpTo(rows, fw.rows, names, i, from, to)
      invariant found <==> NamedUpTo(rows, names, i, from)
    {
      assert IsCopy(rows, "zone", sa[i], names[i]);
      RenamedOneMore(rows, fw.rows, names, i, from, to);
      var hit := RenameOneZone(fw, sa[i], names[i], from, to);
      found := found || hit;
    }
    AllReplaced(rows, fw.rows, sa, names, from, to);
  }

  ghost predicate RenamedUpTo(rows: Rows, rows': Rows, names: seq<string>, i: nat, from: string, to: string) {
    && rows'.Keys == rows.Keys && i <= |names| && (forall s :: s in names ==> s in rows)
    && forall s :: s in rows ==> rows'[s] == if s in names[..i] then Replace(rows[s], "name", from, to) else rows[s]
  }

  ghost predicate NamedUpTo(rows: Rows, names: seq<string>, i: nat, from: string)
    requires i <= |names|
  {
    exists z :: z in names[..i] && ZoneName(rows, z) == Some(Str(from))
  }

  lemma RenamedOneMore(rows: Rows, rows': Rows, names: seq<string>, i: nat, from: string, to: string)
    requires i < |names| && DistinctStrings(names) && RenamedUpTo(rows, rows', names, i, from, to)
    ensures names[i] in rows' && rows'[names[i]] == rows[names[i]]
    ensures RenamedUpTo(rows, rows'[names[i] := Replace(rows[names[i]], "name", from, to)], names, i + 1, from, to)
    ensures NamedUpTo(rows, names, i + 1, from) <==>
            NamedUpTo(rows, names, i, from) || ZoneName(rows, names[i]) == Some(Str(from))
  {
    assert names[..i + 1] == names[..i] + [names[i]] && names[i] !in names[..i];
  }

  lemma AllReplaced(rows: Rows, rows': Rows, sa: seq<Section>, names: seq<string>, from: string, to: string)
    requires Lists(rows, "zone", sa, names) && RenamedUpTo(rows, rows', names, |sa|, from, to)
    ensures forall s :: s in rows' ==> rows'[s] == if IsZone(rows, s) then Replace(rows[s], "name", from, to) else rows[s]
    ensures NamedUpTo(rows, names, |sa|, from) <==> ZoneNamed(rows, Some(Str(from)))
  {
    assert names[..|sa|] == names;
    assert forall s :: IsZone(rows, s) <==> s in names;
  }

  method RenameOneZone(fw: Rules, sec: Section, ghost s: string, from: string, to: string) returns (hit: bool)
    requires fw.Valid() && to != "" && s in fw.rows && NameOf(sec) == s && Opt(sec, "name") == ZoneName(fw.rows, s)
    modifies fw, fw.uci
    ensures fw.Valid() && fw.taken == old(fw.taken) && (hit <==> ZoneName(old(fw.rows), s) == Some(Str(from)))
    ensures fw.rows == old(fw.rows)[s := Replace(old(fw.rows)[s], "name", from, to)]
  {
    hit := Opt(sec, "name") == Some(Str(from));
    if hit { fw.Put(NameOf(sec), "name", to); }
  }

  method RenameReferences(fw: Rules, from: string, to: string)
    requires fw.Valid() && to != ""
    modifies fw, fw.uci
    ensures fw.Valid() && fw.taken == old(fw.taken) && fw.rows.Keys == old(fw.rows).Keys
    ensures forall s :: s in fw.rows ==>
              fw.rows[s] == RenamedEnds(old(fw.rows)[s], from, to)
  {
    hide Rules.Valid, RenamedEnds;
    var sa;
    ghost var names;
    sa, names := fw.Sections("");
    ghost var rows := fw.rows;
    for i := 0 to |sa|
      invariant fw.Valid() && fw.taken == old(fw.taken) && fw.rows.Keys == rows.Keys
      invariant forall j :: 0 <= j < i ==> fw.rows[names[j]] == RenamedEnds(rows[names[j]], from, to)
      invariant forall j :: i <= j < |sa| ==> fw.rows[names[j]] == rows[names[j]]
    {
      assert IsCopy(rows, "", sa[i], names[i]) && IsCopy(fw.rows, "", sa[i], names[i]);
      RenameOne(fw, sa[i], names[i], from, to);
    }
    forall s | s in rows ensures fw.rows[s] == RenamedEnds(rows[s], from, to) { assert s in names; }
  }

  function RenamedEnds(sec: Section, from: string, to: string): Section {
    if RefersByType(sec) then Replace(Replace(sec, "src", from, to), "dest", from, to) else sec
  }

  method RenameOne(fw: Rules, sec: Section, ghost s: string, from: string, to: string)
    requires fw.Valid() && to != "" && s in fw.rows && IsCopy(fw.rows, "", sec, s)
    modifies fw, fw.uci
    ensures fw.Valid() && fw.taken == old(fw.taken)
    ensures fw.rows == old(fw.rows)[s := RenamedEnds(old(fw.rows)[s], from, to)]
  {
    if RefersByType(sec) {
      if Opt(sec, "src") == Some(Str(from)) { fw.Put(NameOf(sec), "src", to); }
      if Opt(sec, "dest") == Some(Str(from)) { fw.Put(NameOf(sec), "dest", to); }
    }
  }

  function NewName(v: Option<Value>, from: string, to: string): Option<Value> {
    if v == Some(Str(from)) then Some(Str(to)) else v
  }

  /** The names of zones and the ends of forwardings are renamed alike. */
  ghost predicate Renames(rows: Rows, rows': Rows, from: string, to: string) {
    && (forall s :: (IsZone(rows', s) <==> IsZone(rows, s)) && (IsForwarding(rows', s) <==> IsForwarding(rows, s)))
    && (forall z :: IsZone(rows, z) ==> ZoneName(rows', z) == NewName(ZoneName(rows, z), from, to))
    && forall f :: IsForwarding(rows, f) ==>
         Ends(rows', f) == (NewName(Get(rows, f, "src"), from, to), NewName(Get(rows, f, "dest"), from, to))
  }

  lemma RenameIsRenaming(rows: Rows, from: string, to: string)
    ensures Renames(rows, AfterRename(rows, from, to), from, to)
  {
    var rows' := AfterRename(rows, from, to);
    forall s ensures IsZone(rows', s) <==> IsZone(rows, s)
      ensures IsForwarding(rows', s) <==> IsForwarding(rows, s) {}
  }

  lemma RenamedNames(rows: Rows, rows': Rows, from: string, to: string, v: Option<Value>)
    requires Renames(rows, rows', from, to) && ZoneNamed(rows, v)
    ensures ZoneNamed(rows', NewName(v, from, to))
  {
    var z :| IsZone(rows, z) && ZoneName(rows, z) == v;
    assert IsZone(rows', z) && ZoneName(rows', z) == NewName(v, from, to);
  }

  lemma RenamedZones(rows: Rows, rows': Rows, from: string, to: string)
    requires Renames(rows, rows', from, to) && ZonesDistinct(rows)
    requires to != "" && from != to && !ZoneNamed(rows, Some(Str(to)))
    ensures ZonesDistinct(rows') && !ZoneNamed(rows', Some(Str(from)))
  {
    hide IsZone, ZoneName;
    forall z, y | IsZone(rows', z) && IsZone(rows', y) && ZoneName(rows', z) == ZoneName(rows', y) ensures z == y {
      assert IsZone(rows, z) && IsZone(rows, y) && ZoneName(rows, z) != Some(Str(to)) && ZoneName(rows, y) != Some(Str(to));
    }
  }

  lemma RenamedForwardings(rows: Rows, rows': Rows, from: string, to: string)
    requires Renames(rows, rows', from, to) && ForwardingsJoin(rows) && PairsDistinct(rows)
    requires to != "" && from != to && !ZoneNamed(rows, Some(Str(to)))
    ensures ForwardingsJoin(rows') && PairsDistinct(rows')
  {
    hide IsZone, ZoneName, ZoneNamed, IsForwarding, Get;
    forall f | IsForwarding(rows', f)
      ensures var (src, dest) := Ends(rows', f);
              IsText(src) && IsText(dest) && src != dest && ZoneNamed(rows', src) && ZoneNamed(rows', dest)
    {
      assert IsForwarding(rows, f);
      RenamedNames(rows, rows', from, to, Get(rows, f, "src"));
      RenamedNames(rows, rows', from, to, Get(rows, f, "dest"));
    }
    forall f, g | IsForwarding(rows', f) && IsForwarding(rows', g) && Ends(rows', f) == Ends(rows', g) ensures f == g {
      assert IsForwarding(rows, f) && IsForwarding(rows, g);
    }
  }

  /** Renaming keeps all references intact; nothing names the old zone; no other option changes. */
  lemma RenameKeepsIntact(rows: Rows, from: string, to: string)
    requires Intact(rows) && to != "" && from != to && !ZoneNamed(rows, Some(Str(to)))
    ensures var rows' := AfterRename(rows, from, to);
            && Intact(rows') && !ZoneNamed(rows', Some(Str(from)))
            && (forall s :: s in rows' ==> !RefersTo(rows'[s], Some(Str(from))))
            && forall s, o :: o !in {"name", "src", "dest"} ==> Get(rows', s, o) == Get(rows, s, o)
  {
    var rows' := AfterRename(rows, from, to);
    RenameIsRenaming(rows, from, to);
    RenamedZones(rows, rows', from, to);
    RenamedForwardings(rows, rows', from, to);
    hide ZonesDistinct, ForwardingsJoin, PairsDistinct, ZoneNamed, Renames;
  }

  // ---- Forwardings --------------------------------------------------------------------------

  /** The forwardings with both ends whose `what` end is the zone's name. */
  method GetForwardingsBy(fw: Rules, zone: string, what: string) returns (fwds: seq<string>)
    requires fw.Valid() && PlainName(zone) && (what == "src" || what == "dest")
    ensures DistinctStrings(fwds)
    ensures forall f :: f in fwds <==> IsForwarding(fw.rows, f) && Get(fw.rows, f, "src").Some? && Get(fw.rows, f, "dest").Some?
                                       && Get(fw.rows, f, what) == ZoneName(fw.rows, zone)
    ensures forall f :: f in fwds ==> PlainName(f)
  {
    hide Rules.Valid;
    var sa;
    ghost var names;
    sa, names := fw.Sections("forwarding");
    fwds := [];
    for i := 0 to |sa|
      invariant DistinctStrings(fwds) && forall f :: f in fwds ==> PlainName(f)
      invariant forall f :: f in fwds <==>
                  f in names[..i] && Get(fw.rows, f, "src").Some? && Get(fw.rows, f, "dest").Some?
                  && Get(fw.rows, f, what) == ZoneName(fw.rows, zone)
    {
      assert IsCopy(fw.rows, "forwarding", sa[i], names[i]);
      assert names[..i + 1] == names[..i] + [names[i]];
      var own := fw.Option(zone, "name");
      if Opt(sa[i], "src").Some? && Opt(sa[i], "dest").Some? && Opt(sa[i], what) == own {
        fwds := fwds + [NameOf(sa[i])];
      }
    }
    assert names[..|sa|] == names;
  }

  /** The ends of a forwarding between the zone `own` and the zone `other`. */
  function Pair(own: Option<Value>, other: Option<Value>, out: bool): (Option<Value>, Option<Value>) {
    if out then (own, other) else (other, own)
  }

  ghost predicate Joined(rows: Rows, ends: (Option<Value>, Option<Value>)) {
    exists f :: IsForwarding(rows, f) && Ends(rows, f) == ends
  }

  function NewForwarding(f: string, index: int, ends: (Value, Value)): Section {
    NewSection("forwarding", f, false, index)["src" := ends.0]["dest" := ends.1]
  }

  /** `addForwardingTo` when `out`, else `addForwardingFrom`; `peer` is the zone the lookup finds. */
  method AddForwarding(fw: Rules, zone: string, other: string, out: bool, chosen: string)
    returns (f: Option<string>, ghost peer: Option<string>, ghost index: int)
    requires fw.Valid() && PlainName(zone) && IsText(ZoneName(fw.rows, zone)) && ZonesDistinct(fw.rows)
    requires chosen !in fw.taken && PlainName(chosen)
    modifies fw, fw.uci
    ensures fw.Valid() && old(fw.taken) <= fw.taken <= old(fw.taken) + {chosen}
    ensures peer.Some? ==> IsZone(old(fw.rows), peer.value)
    ensures peer.None? ==> !ZoneNamed(old(fw.rows), Some(Str(other)))
    ensures IsPlain(other) && peer.Some? ==> Finds(old(fw.rows), other, peer.value)
    ensures IsPlain(other) && peer.None? ==> forall z :: !Finds(old(fw.rows), other, z)
    ensures f.Some? <==>
              && peer.Some? && ZoneName(old(fw.rows), peer.value) != ZoneName(old(fw.rows), zone)
              && !Joined(old(fw.rows), Pair(ZoneName(old(fw.rows), zone), ZoneName(old(fw.rows), peer.value), out))
    ensures f.None? ==> fw.rows == old(fw.rows)
    ensures f.Some? ==>
              var own, far := ZoneName(old(fw.rows), zone).value, ZoneName(old(fw.rows), peer.value).value;
              f.value == chosen && chosen !in old(fw.rows) &&
              fw.rows == old(fw.rows)[chosen := NewForwarding(chosen, index, if out then (own, far) else (far, own))]
  {
    index := 0;
    var near := if out then "src" else "dest";
    var fwds := GetForwardingsBy(fw, zone, near);
    var z := LookupZone(fw, other);
    peer := z;
    if z.None? { return None, peer, index; }
    var own := fw.Option(zone, "name");
    var far := fw.Option(z.value, "name");
    if far == own { return None, peer, index; }
    var present := HasEnd(fw, fwds, if out then "dest" else "src", far);
    if present { return None, peer, index; }
    assert !Joined(fw.rows, Pair(own, far, out));
    if out { index := AddPair(fw, chosen, own.value.text, far.value.text); }
    else { index := AddPair(fw, chosen, far.value.text, own.value.text); }
    return Some(chosen), peer, index;
  }

  method HasEnd(fw: Rules, fwds: seq<string>, what: string, name: Option<Value>) returns (present: bool)
    requires fw.Valid() && forall f :: f in fwds ==> PlainName(f)
    ensures present <==> exists f :: f in fwds && Get(fw.rows, f, what) == name
  {
    for i := 0 to |fwds|
      invariant forall f :: f in fwds[..i] ==> Get(fw.rows, f, what) != name
    {
      var end := fw.Option(fwds[i], what);
      if end == name { return true; }
      assert fwds[..i + 1] == fwds[..i] + [fwds[i]];
    }
    assert fwds[..|fwds|] == fwds;
    return false;
  }

  method AddPair(fw: Rules, chosen: string, src: string, dest: string) returns (ghost index: int)
    requires fw.Valid() && chosen !in fw.taken && PlainName(chosen) && src != "" && dest != ""
    modifies fw, fw.uci
    ensures fw.Valid() && chosen !in old(fw.rows) && fw.taken == old(fw.taken) + {chosen}
    ensures fw.rows == old(fw.rows)[chosen := NewForwarding(chosen, index, (Str(src), Str(dest)))]
  {
    hide Rules.Valid;
    index := fw.Add("forwarding", chosen);
    fw.Put(chosen, "src", src);
    fw.Put(chosen, "dest", dest);
  }

  /** A forwarding between two different zones that are not yet joined this way keeps everything intact. */
  lemma AddForwardingKeepsIntact(rows: Rows, f: string, index: int, ends: (Value, Value))
    requires Intact(rows) && f !in rows && ends.0 != ends.1 && IsText(Some(ends.0)) && IsText(Some(ends.1))
    requires ZoneNamed(rows, Some(ends.0)) && ZoneNamed(rows, Some(ends.1))
    requires !Joined(rows, (Some(ends.0), Some(ends.1)))
    ensures var rows' := rows[f := NewForwarding(f, index, ends)];
            && Intact(rows')
            && (forall e :: Joined(rows', e) <==> Joined(rows, e) || e == (Some(ends.0), Some(ends.1)))
            && (forall v :: ZoneNamed(rows', v) <==> ZoneNamed(rows, v))
            && forall z :: IsZone(rows', z) <==> IsZone(rows, z)
  {
    var rows' := rows[f := NewForwarding(f, index, ends)];
    assert IsForwarding(rows', f) && Ends(rows', f) == (Some(ends.0), Some(ends.1));
    assert forall s :: s != f ==> (s in rows' <==> s in rows) && (s in rows ==> rows'[s] == rows[s]);
    forall z ensures IsZone(rows', z) <==> IsZone(rows, z)
      ensures IsZone(rows, z) ==> ZoneName(rows', z) == ZoneName(rows, z) {}
    forall v ensures ZoneNamed(rows', v) <==> ZoneNamed(rows, v) {
      if z :| IsZone(rows, z) && ZoneName(rows, z) == v { assert IsZone(rows', z) && ZoneName(rows', z) == v; }
      if z :| IsZone(rows', z) && ZoneName(rows', z) == v { assert IsZone(rows, z) && ZoneName(rows, z) == v; }
    }
    forall g | g != f && IsForwarding(rows', g) ensures IsForwarding(rows, g) && Ends(rows', g) == Ends(rows, g) {}
    forall e | Joined(rows, e) ensures Joined(rows', e) {
      var g :| IsForwarding(rows, g) && Ends(rows, g) == e;
      assert IsForwarding(rows', g) && Ends(rows', g) == e;
    }
  }

  // ---- Runs -----------------------------------------------------------------------------------

  /** What the operations did when they succeeded, as their contracts tell it. */
  datatype Action =
    | ZoneAdded(mid: Rows, d: string, chosen: string, index: int, name: string)
    | ZonesDeleted(zones: set<string>, key: Option<Value>)
    | ZoneRenamed(from: string, to: string)
    | ForwardingAdded(f: string, index: int, ends: (Value, Value))

  ghost predicate Enabled(rows: Rows, a: Action) {
    match a
    case ZoneAdded(mid, d, chosen, index, name) =>
      WithDefaults(rows, mid, d) && chosen !in mid && name != "" && !ZoneNamed(rows, Some(Str(name)))
    case ZonesDeleted(zones, key) => zones != {} && forall z :: z in zones ==> IsZone(rows, z) && ZoneName(rows, z) == key
    case ZoneRenamed(from, to) => to != "" && !ZoneNamed(rows, Some(Str(to))) && ZoneNamed(rows, Some(Str(from)))
    case ForwardingAdded(f, index, ends) =>
      && f !in rows && ends.0 != ends.1 && IsText(Some(ends.0)) && IsText(Some(ends.1))
      && ZoneNamed(rows, Some(ends.0)) && ZoneNamed(rows, Some(ends.1)) && !Joined(rows, (Some(ends.0), Some(ends.1)))
  }

  ghost function Result(rows: Rows, a: Action): Rows
    requires Enabled(rows, a)
  {
    match a
    case ZoneAdded(mid, d, chosen, index, name) => mid[chosen := NewZone(chosen, index, name, mid[d])]
    case ZonesDeleted(zones, key) => AfterDelete(rows, zones, key)
    case ZoneRenamed(from, to) => AfterRename(rows, from, to)
    case ForwardingAdded(f, index, ends) => rows[f := NewForwarding(f, index, ends)]
  }

  ghost predicate IsRun(rows: Rows, acts: seq<Action>, end: Rows)
    decreases acts
  {
    if acts == [] then end == rows else Enabled(rows, acts[0]) && IsRun(Result(rows, acts[0]), acts[1..], end)
  }

  /** Every run of the operations keeps zone names distinct and every forwarding between two existing zones. */
  lemma {:induction false} RunKeepsIntact(rows: Rows, acts: seq<Action>, end: Rows)
    requires Intact(rows) && IsRun(rows, acts, end)
    ensures Intact(end)
    decreases acts
  {
    if acts != [] {
      match acts[0] {
        case ZoneAdded(mid, d, chosen, index, name) => AddZoneKeepsIntact(rows, mid, d, chosen, index, name);
        case ZonesDeleted(zones, key) => DeleteKeepsIntact(rows, zones, key);
        case ZoneRenamed(from, to) => RenameKeepsIntact(rows, from, to);
        case ForwardingAdded(f, index, ends) => AddForwardingKeepsIntact(rows, f, index, ends);
      }
      RunKeepsIntact(Result(rows, acts[0]), acts[1..], end);
    }
  }

  lemma {:induction false} RunThenRun(rows: Rows, acts: seq<Action>, mid: Rows, more: seq<Action>, end: Rows)
    requires IsRun(rows, acts, mid) && IsRun(mid, more, end)
    ensures IsRun(rows, acts + more, end)
    decreases acts
  {
    hide Enabled, Result;
    if acts == [] {
      assert acts + more == more;
    } else {
      assert (acts + more)[1..] == acts[1..] + more;
      RunThenRun(Result(rows, acts[0]), acts[1..], mid, more, end);
    }
  }

  lemma OneAct(rows: Rows, a: Action)
    requires Enabled(rows, a)
    ensures IsRun(rows, [a], Result(rows, a))
  {
    assert [a][1..] == [];
  }

  /** The operations as they are called; the names for new sections are those that are chosen at random. */
  datatype Command =
    | AddZoneCommand(name: string, chosen: string, chosenDefaults: string)
    | DeleteZoneCommand(name: string)
    | RenameZoneCommand(from: string, to: string)
    | AddForwardingCommand(zone: string, other: string, out: bool, chosen: string)

  function Chosen(cmd: Command): set<string> {
    match cmd
    case AddZoneCommand(_, chosen, chosenDefaults) => {chosen, chosenDefaults}
    case AddForwardingCommand(_, _, _, chosen) => {chosen}
    case _ => {}
  }

  ghost predicate IsFresh(taken: set<string>, cmd: Command) {
    && Chosen(cmd) !! taken && (forall c :: c in Chosen(cmd) ==> PlainName(c))
    && (cmd.AddZoneCommand? ==> cmd.chosen != cmd.chosenDefaults)
  }

  /** Every call of an operation is a run of at most one action. */
  method Perform(fw: Rules, cmd: Command) returns (ghost acts: seq<Action>)
    requires fw.Valid() && Intact(fw.rows) && IsFresh(fw.taken, cmd)
    modifies fw, fw.uci
    ensures fw.Valid() && Intact(fw.rows) && fw.taken <= old(fw.taken) + Chosen(cmd)
    ensures IsRun(old(fw.rows), acts, fw.rows) && |acts| <= 1
  {
    match cmd
    case AddZoneCommand(name, chosen, chosenDefaults) => acts := PerformAddZone(fw, name, chosen, chosenDefaults);
    case DeleteZoneCommand(name) => acts := PerformDeleteZone(fw, name);
    case RenameZoneCommand(from, to) => acts := PerformRenameZone(fw, from, to);
    case AddForwardingCommand(zone, other, out, chosen) => acts := PerformAddForwarding(fw, zone, other, out, chosen);
  }

  method PerformAddZone(fw: Rules, name: string, chosen: string, chosenDefaults: string) returns (ghost acts: seq<Action>)
    requires fw.Valid() && Intact(fw.rows) && IsFresh(fw.taken, AddZoneCommand(name, chosen, chosenDefaults))
    modifies fw, fw.uci
    ensures fw.Valid() && Intact(fw.rows) && fw.taken <= old(fw.taken) + {chosen, chosenDefaults}
    ensures IsRun(old(fw.rows), acts, fw.rows) && |acts| <= 1
  {
    var z;
    ghost var d, mid, index;
    z, d, mid, index := AddZone(fw, name, chosen, chosenDefaults);
    acts := [];
    if z.Some? {
      acts := [ZoneAdded(mid, d, chosen, index, name)];
      OneAct(old(fw.rows), acts[0]);
    }
    RunKeepsIntact(old(fw.rows), acts, fw.rows);
  }

  method PerformDeleteZone(fw: Rules, name: string) returns (ghost acts: seq<Action>)
    requires fw.Valid() && Intact(fw.rows)
    modifies fw, fw.uci
    ensures fw.Valid() && Intact(fw.rows) && fw.taken == old(fw.taken)
    ensures IsRun(old(fw.rows), acts, fw.rows) && |acts| <= 1
  {
    var found;
    ghost var zones, key;
    found, zones, key := DeleteZone(fw, name);
    acts := [];
    if found {
      acts := [ZonesDeleted(zones, key)];
      OneAct(old(fw.rows), acts[0]);
    }
    RunKeepsIntact(old(fw.rows), acts, fw.rows);
  }

  method PerformRenameZone(fw: Rules, from: string, to: string) returns (ghost acts: seq<Action>)
    requires fw.Valid() && Intact(fw.rows)
    modifies fw, fw.uci
    ensures fw.Valid() && Intact(fw.rows) && fw.taken == old(fw.taken)
    ensures IsRun(old(fw.rows), acts, fw.rows) && |acts| <= 1
  {
    var found := RenameZone(fw, from, to);
    acts := [];
    if found {
      acts := [ZoneRenamed(from, to)];
      OneAct(old(fw.rows), acts[0]);
    }
    RunKeepsIntact(old(fw.rows), acts, fw.rows);
  }

  method PerformAddForwarding(fw: Rules, zone: string, other: string, out: bool, chosen: string)
    returns (ghost acts: seq<Action>)
    requires fw.Valid() && Intact(fw.rows) && chosen !in fw.taken && PlainName(chosen)
    modifies fw, fw.uci
    ensures fw.Valid() && Intact(fw.rows) && fw.taken <= old(fw.taken) + {chosen}
    ensures IsRun(old(fw.rows), acts, fw.rows) && |acts| <= 1
  {
    var z := LookupZone(fw, zone);
    acts := [];
    if z.None? { return; }
    ghost var rows := fw.rows;
    ghost var own := ZoneName(rows, z.value);
    var f;
    ghost var peer, index;
    f, peer, index := AddForwarding(fw, z.value, other, out, chosen);
    if f.Some? {
      ghost var far := ZoneName(rows, peer.value);
      acts := [ForwardingAdded(chosen, index, if out then (own.value, far.value) else (far.value, own.value))];
      assert ZoneNamed(rows, own) && ZoneNamed(rows, far);
      OneAct(rows, acts[0]);
    }
    RunKeepsIntact(rows, acts, fw.rows);
  }

  /** The chosen names are new when their turn comes. */
  ghost predicate AllFresh(taken: set<string>, cmds: seq<Command>)
    decreases cmds
  {
    cmds == [] || (IsFresh(taken, cmds[0]) && AllFresh(taken + Chosen(cmds[0]), cmds[1..]))
  }

  lemma {:induction false} StillFresh(taken: set<string>, less: set<string>, cmds: seq<Command>)
    requires AllFresh(taken, cmds) && less <= taken
    ensures AllFresh(less, cmds)
    decreases cmds
  {
    if cmds != [] { StillFresh(taken + Chosen(cmds[0]), less + Chosen(cmds[0]), cmds[1..]); }
  }

  /** Any sequence of calls keeps the references intact. */
  method PerformAll(fw: Rules, cmds: seq<Command>) returns (ghost acts: seq<Action>)
    requires fw.Valid() && Intact(fw.rows) && AllFresh(fw.taken, cmds)
    modifies fw, fw.uci
    ensures fw.Valid() && Intact(fw.rows) && IsRun(old(fw.rows), acts, fw.rows)
  {
    acts := [];
    for i := 0 to |cmds|
      invariant fw.Valid() && Intact(fw.rows) && IsRun(old(fw.rows), acts, fw.rows) && AllFresh(fw.taken, cmds[i..])
    {
      ghost var before, taken := fw.rows, fw.taken;
      ghost var more := Perform(fw, cmds[i]);
      RunThenRun(old(fw.rows), acts, before, more, fw.rows);
      acts := acts + more;
      assert cmds[i..][1..] == cmds[i + 1..];
      StillFresh(taken + Chosen(cmds[i]), fw.taken, cmds[i + 1..]);
    }
  }
}
