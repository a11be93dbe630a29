/**
 * The zone form's list of forwarding peers: writing a list of zone names makes exactly those zones the
 * peers of the edited zone.
 */
module FirewallReconcile {
  import opened Common
  import opened UciState
  import opened UciOrder
  import opened FirewallRows
  import opened Firewall

  /** No requested name is a reference. */
  predicate AllPlain(wanted: seq<string>) { forall n :: n in wanted ==> IsPlain(n) }

  /** No requested name is the section name of a zone that is called differently. */
  ghost predicate NamesAgree(rows: Rows, wanted: seq<string>) {
    forall n :: n in wanted && IsZone(rows, n) ==> ZoneName(rows, n) == Some(Str(n))
  }

  predicate Wanted(wanted: seq<string>, name: Option<Value>) {
    name.Some? && name.value.Str? && name.value.text in wanted
  }

  /** Removing forwardings never breaks a reference. */
  lemma RemovalKeepsIntact(rows: Rows, gone: set<string>)
    requires Intact(rows) && forall f :: f in gone ==> IsForwarding(rows, f)
    ensures var rows' := rows - gone;
            && Intact(rows')
            && (forall v :: ZoneNamed(rows', v) <==> ZoneNamed(rows, v))
            && (forall z :: IsZone(rows', z) <==> IsZone(rows, z))
            && forall z :: IsZone(rows, z) ==> ZoneName(rows', z) == ZoneName(rows, z)
  {
    var rows' := rows - gone;
    forall z ensures IsZone(rows', z) <==> IsZone(rows, z)
      ensures IsZone(rows, z) ==> ZoneName(rows', z) == ZoneName(rows, z) {}
    forall v ensures ZoneNamed(rows', v) <==> ZoneNamed(rows, v) {
      if z :| IsZone(rows, z) && ZoneName(rows, z) == v { assert IsZone(rows', z) && ZoneName(rows', z) == v; }
      if z :| IsZone(rows', z) && ZoneName(rows', z) == v { assert IsZone(rows, z) && ZoneName(rows, z) == v; }
    }
    forall f | IsForwarding(rows', f) ensures IsForwarding(rows, f) && Ends(rows', f) == Ends(rows, f) {}
  }

  method DeleteForwarding(fw: Rules, f: string) returns (ok: bool)
    requires fw.Valid() && PlainName(f)
    modifies fw, fw.uci
    ensures fw.Valid() && fw.taken == old(fw.taken) && (ok <==> IsForwarding(old(fw.rows), f))
    ensures fw.rows == if ok then old(fw.rows) - {f} else old(fw.rows)
  {
    var sec := fw.Section(f);
    if sec.None? || Opt(sec.value, ".type") != Some(Str("forwarding")) { return false; }
    fw.Remove(NameOf(sec.value));
    return true;
  }

  /** Deletes the zone's forwardings to zones that are not wanted. */
  method DropUnwanted(fw: Rules, zone: string, wanted: seq<string>, out: bool) returns (ghost gone: set<string>)
    requires fw.Valid() && PlainName(zone)
    modifies fw, fw.uci
    ensures fw.Valid() && fw.taken == old(fw.taken) && fw.rows == old(fw.rows) - gone
    ensures var near, far := if out then "src" else "dest", if out then "dest" else "src";
            forall f :: f in gone <==>
              && IsForwarding(old(fw.rows), f) && Get(old(fw.rows), f, "src").Some? && Get(old(fw.rows), f, "dest").Some?
              && Get(old(fw.rows), f, near) == ZoneName(old(fw.rows), zone) && !Wanted(wanted, Get(old(fw.rows), f, far))
  {
    hide Rules.Valid;
    var near, far := if out then "src" else "dest", if out then "dest" else "src";
    var fwds := GetForwardingsBy(fw, zone, near);
    ghost var rows := fw.rows;
    gone := {};
    for i := 0 to |fwds|
      invariant fw.Valid() && fw.taken == old(fw.taken) && fw.rows == rows - gone
      invariant forall f :: f in gone <==> f in fwds[..i] && !Wanted(wanted, Get(rows, f, far))
    {
      assert fwds[i] in fwds && fwds[..i + 1] == fwds[..i] + [fwds[i]];
      assert fwds[i] !in fwds[..i];
      var cmp := fw.Option(fwds[i], far);
      if !Wanted(wanted, cmp) {
        var ok := DeleteForwarding(fw, fwds[i]);
        gone := gone + {fwds[i]};
      }
    }
    assert fwds[..|fwds|] == fwds;
  }

  /** The pairs of the zone with the other zones that the lookup finds under the wanted names. */
  ghost predicate Added(rows: Rows, own: Option<Value>, wanted: seq<string>, out: bool, e: (Option<Value>, Option<Value>)) {
    exists n, z {:trigger Finds(rows, n, z)} ::
      n in wanted && Finds(rows, n, z) && ZoneName(rows, z) != own && e == Pair(own, ZoneName(rows, z), out)
  }

  ghost predicate FreshNames(fw: Rules, chosen: seq<string>)
    reads fw
  {
    DistinctStrings(chosen) && forall c :: c in chosen ==> c !in fw.taken && PlainName(c)
  }

  /** Only forwardings were added. */
  ghost predicate Grown(rows: Rows, rows': Rows) {
    && (forall s :: s in rows ==> s in rows' && rows'[s] == rows[s])
    && forall s :: s in rows' && s !in rows ==> IsForwarding(rows', s)
  }

  /** Added forwardings leave the zones as they are. */
  lemma SameZones(rows: Rows, rows': Rows)
    requires Grown(rows, rows')
    ensures forall z :: IsZone(rows', z) <==> IsZone(rows, z)
    ensures forall z :: IsZone(rows, z) ==> ZoneName(rows', z) == ZoneName(rows, z)
    ensures forall v :: ZoneNamed(rows', v) <==> ZoneNamed(rows, v)
  {
    forall v ensures ZoneNamed(rows', v) <==> ZoneNamed(rows, v) {
      if z :| IsZone(rows, z) && ZoneName(rows, z) == v { assert IsZone(rows', z) && ZoneName(rows', z) == v; }
      if z :| IsZone(rows', z) && ZoneName(rows', z) == v { assert IsZone(rows, z) && ZoneName(rows, z) == v; }
    }
  }

  method AddOne(fw: Rules, zone: string, n: string, out: bool, chosen: string)
    requires fw.Valid() && PlainName(zone) && IsZone(fw.rows, zone) && Intact(fw.rows) && IsPlain(n)
    requires chosen !in fw.taken && PlainName(chosen)
    modifies fw, fw.uci
    ensures fw.Valid() && Intact(fw.rows) && Grown(old(fw.rows), fw.rows) && fw.taken <= old(fw.taken) + {chosen}
    ensures var own := ZoneName(old(fw.rows), zone);
            forall e :: Joined(fw.rows, e) <==> Joined(old(fw.rows), e) || Added(old(fw.rows), own, [n], out, e)
  {
    hide Rules.Valid, Joined;
    ghost var rows, own := fw.rows, ZoneName(fw.rows, zone);
    var f;
    ghost var peer, index;
    f, peer, index := AddForwarding(fw, zone, n, out, chosen);
    AddedOne(rows, own, n, out, peer);
    assert ZoneNamed(rows, own);
    if f.Some? {
      ghost var far := ZoneName(rows, peer.value);
      assert ZoneNamed(rows, far);
      AddForwardingKeepsIntact(rows, chosen, index, if out then (own.value, far.value) else (far.value, own.value));
    }
  }

  lemma AddedOne(rows: Rows, own: Option<Value>, n: string, out: bool, peer: Option<string>)
    requires ZonesDistinct(rows)
    requires if peer.Some? then Finds(rows, n, peer.value) else forall z :: !Finds(rows, n, z)
    ensures forall e :: Added(rows, own, [n], out, e) <==>
              peer.Some? && ZoneName(rows, peer.value) != own && e == Pair(own, ZoneName(rows, peer.value), out)
  {
    assert n in [n];
  }

  /** The table after the first i wanted names. */
  ghost predicate Progress(rows: Rows, now: Rows, own: Option<Value>, wanted: seq<string>, i: nat, out: bool)
    requires i <= |wanted|
  {
    && Intact(now) && Grown(rows, now)
    && forall e :: Joined(now, e) <==> Joined(rows, e) || Added(rows, own, wanted[..i], out, e)
  }

  lemma OneMore(rows: Rows, before: Rows, now: Rows, own: Option<Value>, wanted: seq<string>, i: nat, out: bool)
    requires i < |wanted| && Progress(rows, before, own, wanted, i, out) && Intact(now) && Grown(before, now)
    requires forall e :: Joined(now, e) <==> Joined(before, e) || Added(before, own, [wanted[i]], out, e)
    ensures Progress(rows, now, own, wanted, i + 1, out)
  {
    SameZones(rows, before);
    hide Intact, Joined, Added, IsZone, ZoneName, ZoneNamed, IsForwarding;
    AddedOneMore(rows, before, own, wanted, i, out);
  }

  lemma FirstNone(rows: Rows, own: Option<Value>, wanted: seq<string>, out: bool)
    requires Intact(rows)
    ensures Progress(rows, rows, own, wanted, 0, out)
  {
  }

  method AddWanted(fw: Rules, zone: string, wanted: seq<string>, out: bool, chosen: seq<string>)
    requires fw.Valid() && PlainName(zone) && IsZone(fw.rows, zone) && Intact(fw.rows) && AllPlain(wanted)
    requires |chosen| == |wanted| && FreshNames(fw, chosen)
    modifies fw, fw.uci
    ensures fw.Valid() && Intact(fw.rows) && Grown(old(fw.rows), fw.rows)
    ensures var own := ZoneName(old(fw.rows), zone);
            forall e :: Joined(fw.rows, e) <==> Joined(old(fw.rows), e) || Added(old(fw.rows), own, wanted, out, e)
  {
    hide Rules.Valid, Joined, Added, IsZone, ZoneName;
    ghost var rows, own := fw.rows, ZoneName(fw.rows, zone);
    FirstNone(rows, own, wanted, out);
    for i := 0 to |wanted|
      invariant fw.Valid() && Progress(rows, fw.rows, own, wanted, i, out)
      invariant forall k :: i <= k < |chosen| ==> chosen[k] !in fw.taken
    {
      ghost var before := fw.rows;
      SameZones(rows, before);
      assert chosen[i] in chosen && wanted[i] in wanted;
      AddOne(fw, zone, wanted[i], out, chosen[i]);
      OneMore(rows, before, fw.rows, own, wanted, i, out);
    }
    assert wanted[..|wanted|] == wanted;
  }

  lemma SameFinds(rows: Rows, before: Rows, n: string, z: string)
    requires forall z :: IsZone(before, z) <==> IsZone(rows, z)
    requires forall z :: IsZone(rows, z) ==> ZoneName(before, z) == ZoneName(rows, z)
    ensures Finds(before, n, z) <==> Finds(rows, n, z)
    ensures Finds(rows, n, z) ==> ZoneName(before, z) == ZoneName(rows, z)
  {
  }

  lemma AddedOneMore(rows: Rows, before: Rows, own: Option<Value>, wanted: seq<string>, i: nat, out: bool)
    requires i < |wanted|
    requires forall z :: IsZone(before, z) <==> IsZone(rows, z)
    requires forall z :: IsZone(rows, z) ==> ZoneName(before, z) == ZoneName(rows, z)
    ensures forall e :: Added(rows, own, wanted[..i + 1], out, e) <==>
                        Added(rows, own, wanted[..i], out, e) || Added(before, own, [wanted[i]], out, e)
  {
    hide IsZone, ZoneName, Finds, Pair;
    assert wanted[..i + 1] == wanted[..i] + [wanted[i]];
    forall e ensures Added(rows, own, wanted[..i + 1], out, e) <==>
                     Added(rows, own, wanted[..i], out, e) || Added(before, own, [wanted[i]], out, e) {
      if Added(rows, own, wanted[..i], out, e) {
        var n, z :| n in wanted[..i] && Finds(rows, n, z) && ZoneName(rows, z) != own && e == Pair(own, ZoneName(rows, z), out);
        assert n in wanted[..i + 1];
      }
      if Added(before, own, [wanted[i]], out, e) {
        var n, z :| n in [wanted[i]] && Finds(before, n, z) && ZoneName(before, z) != own
                    && e == Pair(own, ZoneName(before, z), out);
        SameFinds(rows, before, n, z);
        assert n in wanted[..i + 1];
      }
      if Added(rows, own, wanted[..i + 1], out, e) {
        var n, z :| n in wanted[..i + 1] && Finds(rows, n, z) && ZoneName(rows, z) != own
                    && e == Pair(own, ZoneName(rows, z), out);
        SameFinds(rows, before, n, z);
        assert n in wanted[..i] || n in [wanted[i]];
      }
    }
  }

  /**
   * The form's write: afterwards the zone is joined, in the given direction, with the zones that the lookup finds
   * under the wanted names and with those it was joined with under a wanted name before.  All other forwardings are
   * as before; nothing but forwardings is removed or added.
   */
  method WritePeers(fw: Rules, zone: string, wanted: seq<string>, out: bool, chosen: seq<string>)
    returns (ghost gone: set<string>)
    requires fw.Valid() && PlainName(zone) && IsZone(fw.rows, zone) && Intact(fw.rows) && AllPlain(wanted)
    requires |chosen| == |wanted| && FreshNames(fw, chosen)
    modifies fw, fw.uci
    ensures fw.Valid() && Intact(fw.rows)
    ensures (forall f :: f in gone ==> IsForwarding(old(fw.rows), f)) && Grown(old(fw.rows) - gone, fw.rows)
    ensures var own := ZoneName(old(fw.rows), zone);
            forall e :: Joined(fw.rows, e) <==>
              if e == Pair(own, Far(e, out), out)
              then Added(old(fw.rows), own, wanted, out, e) || (Joined(old(fw.rows), e) && Wanted(wanted, Far(e, out)))
              else Joined(old(fw.rows), e)
  {
    ghost var rows, own := fw.rows, ZoneName(fw.rows, zone);
    gone := DropUnwanted(fw, zone, wanted, out);
    ghost var mid := fw.rows;
    RemovalKeepsIntact(rows, gone);
    AddWanted(fw, zone, wanted, out, chosen);
    WrittenPeers(rows, mid, own, wanted, out, gone);
  }

  function Far(e: (Option<Value>, Option<Value>), out: bool): Option<Value> { if out then e.1 else e.0 }

  lemma WrittenPeers(rows: Rows, mid: Rows, own: Option<Value>, wanted: seq<string>, out: bool, gone: set<string>)
    requires Intact(rows) && mid == rows - gone
    requires forall z :: IsZone(mid, z) <==> IsZone(rows, z)
    requires forall z :: IsZone(rows, z) ==> ZoneName(mid, z) == ZoneName(rows, z)
    requires var near, far := if out then "src" else "dest", if out then "dest" else "src";
             forall f :: f in gone <==>
               && IsForwarding(rows, f) && Get(rows, f, "src").Some? && Get(rows, f, "dest").Some?
               && Get(rows, f, near) == own && !Wanted(wanted, Get(rows, f, far))
    ensures forall e :: Joined(mid, e) || Added(mid, own, wanted, out, e) <==>
              if e == Pair(own, Far(e, out), out)
              then Added(rows, own, wanted, out, e) || (Joined(rows, e) && Wanted(wanted, Far(e, out)))
              else Joined(rows, e)
  {
    forall e
      ensures Joined(mid, e) <==> Joined(rows, e) && (e == Pair(own, Far(e, out), out) ==> Wanted(wanted, Far(e, out)))
      ensures Added(mid, own, wanted, out, e) <==> Added(rows, own, wanted, out, e)
    {
      if Joined(mid, e) {
        var f :| IsForwarding(mid, f) && Ends(mid, f) == e;
        assert IsForwarding(rows, f) && Ends(rows, f) == e && f !in gone;
      }
      if Joined(rows, e) && (e == Pair(own, Far(e, out), out) ==> Wanted(wanted, Far(e, out))) {
        var f :| IsForwarding(rows, f) && Ends(rows, f) == e;
        assert IsForwarding(mid, f) && Ends(mid, f) == e;
      }
      SameAdded(rows, mid, own, wanted, out, e);
    }
  }

  lemma SameAdded(rows: Rows, mid: Rows, own: Option<Value>, wanted: seq<string>, out: bool,
                  e: (Option<Value>, Option<Value>))
    requires forall z :: IsZone(mid, z) <==> IsZone(rows, z)
    requires forall z :: IsZone(rows, z) ==> ZoneName(mid, z) == ZoneName(rows, z)
    ensures Added(mid, own, wanted, out, e) <==> Added(rows, own, wanted, out, e)
  {
    hide IsZone, ZoneName, Finds, Pair;
    forall n, z ensures Finds(mid, n, z) <==> Finds(rows, n, z)
      ensures Finds(rows, n, z) ==> ZoneName(mid, z) == ZoneName(rows, z) { SameFinds(rows, mid, n, z); }
  }

  /** Where requested names mean the same as section names, the peers are exactly the requested other zones that exist. */
  lemma NamedPeers(rows: Rows, own: Option<Value>, wanted: seq<string>, out: bool, other: Option<Value>)
    requires Intact(rows) && NamesAgree(rows, wanted)
    ensures var e := Pair(own, other, out);
            Added(rows, own, wanted, out, e) || (Joined(rows, e) && Wanted(wanted, other)) <==>
            (exists n :: n in wanted && other == Some(Str(n))) && ZoneNamed(rows, other) && other != own
  {
    assert Wanted(wanted, other) <==> exists n :: n in wanted && other == Some(Str(n));
    var e := Pair(own, other, out);
    if Wanted(wanted, other) && ZoneNamed(rows, other) && other != own {
      var z :| IsZone(rows, z) && ZoneName(rows, z) == other;
      assert Finds(rows, other.value.text, z);
    }
    if Joined(rows, e) {
      var f :| IsForwarding(rows, f) && Ends(rows, f) == e;
    }
  }
}
