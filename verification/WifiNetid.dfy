/**
 * Wireless network ids: "radio0.network2" is the second wifi-iface section of radio0, and back from a section
 * to its id.
 */
module WifiNetid {
  import opened Common
  import opened Strings

  /** A wifi-iface section, in the order of the configuration. */
  datatype Iface = Iface(name: string, device: Option<string>)

  predicate DistinctNames(s: seq<Iface>) { forall i, j :: 0 <= i < j < |s| ==> s[i].name != s[j].name }

  /** How many of the first n sections belong to a radio. */
  function CountOf(s: seq<Iface>, radio: string, n: nat): nat
    requires n <= |s|
  {
    if n == 0 then 0 else CountOf(s, radio, n - 1) + if s[n - 1].device == Some(radio) then 1 else 0
  }

  /** Section i is the n-th of its radio, counting from one. */
  predicate IsNth(s: seq<Iface>, i: nat, radio: string, n: nat) {
    i < |s| && s[i].device == Some(radio) && CountOf(s, radio, i + 1) == n
  }

  // ---- From an id to a section ------------------------------------------------------------------

  datatype Netid = Netid(radio: string, digits: string)

  predicate IsWord(s: string) { s != "" && forall c :: c in s ==> IsWordChar(c) }

  /** A word, ".network" and digits. */
  function ParseNetid(netid: string): (r: Option<Netid>)
    ensures r.Some? ==> AllDigits(r.value.digits)
  {
    var parts := Split(netid, '.');
    if |parts| == 2 && IsWord(parts[0]) && "network" < parts[1] && AllDigits(parts[1][7..]) then
      Some(Netid(parts[0], parts[1][7..]))
    else None
  }

  /** The section that is the n-th of its radio, if there is one. */
  function FindNth(s: seq<Iface>, radio: string, n: nat, k: nat): Option<string>
    requires k <= |s|
    decreases |s| - k
  {
    if k == |s| then None
    else if IsNth(s, k, radio, n) then Some(s[k].name)
    else FindNth(s, radio, n, k + 1)
  }

  function SidByNetid(s: seq<Iface>, netid: string): Option<string> {
    var m := ParseNetid(netid);
    if m.None? then None else FindNth(s, m.value.radio, NatOf(m.value.digits), 0)
  }

  method GetWifiSidByNetid(sections: seq<Iface>, netid: string) returns (sid: Option<string>)
    ensures sid == SidByNetid(sections, netid)
  {
    var m := ParseNetid(netid);
    if m.None? { return None; }
    var n: nat := 0;
    for i := 0 to |sections|
      invariant n == CountOf(sections, m.value.radio, i)
      invariant SidByNetid(sections, netid) == FindNth(sections, m.value.radio, NatOf(m.value.digits), i)
    {
      if sections[i].device == Some(m.value.radio) {
        n := n + 1;
        if n == NatOf(m.value.digits) { return Some(sections[i].name); }
      }
    }
    return None;
  }

  // ---- From a section to an id ------------------------------------------------------------------

  function NetidOf(radio: string, n: nat): string { radio + ".network" + NatStr(n) }

  /** The id of section i. */
  function NetidAt(s: seq<Iface>, i: nat): Option<string>
    requires i < |s|
  {
    if s[i].device.None? then None
    else Some(NetidOf(s[i].device.value, CountOf(s, s[i].device.value, i + 1)))
  }

  function IndexOf(s: seq<Iface>, sid: string, k: nat): (i: nat)
    requires k <= |s|
    ensures k <= i <= |s| && (i < |s| ==> s[i].name == sid) && forall j :: k <= j < i ==> s[j].name != sid
    decreases |s| - k
  {
    if k == |s| || s[k].name == sid then k else IndexOf(s, sid, k + 1)
  }

  function NetidBySid(s: seq<Iface>, sid: string): Option<string> {
    var i := IndexOf(s, sid, 0);
    if i == |s| then None else NetidAt(s, i)
  }

  /** The sections of a radio up to place i. */
  ghost function Upto(s: seq<Iface>, radio: string, n: nat): set<nat>
    requires n <= |s|
  {
    set j: nat | j < n && s[j].device == Some(radio)
  }

  lemma {:induction false} CountsSections(s: seq<Iface>, radio: string, n: nat)
    requires n <= |s|
    ensures CountOf(s, radio, n) == |Upto(s, radio, n)|
  {
    if n == 0 {
      assert Upto(s, radio, n) == {};
    } else {
      CountsSections(s, radio, n - 1);
      var before := Upto(s, radio, n - 1);
      assert Upto(s, radio, n) == before + if s[n - 1].device == Some(radio) then {n - 1} else {};
      assert n - 1 !in before;
    }
  }

  /** The id names the radio and the number of its sections up to this one; a section without a radio has none. */
  lemma NetidTells(s: seq<Iface>, i: nat)
    requires DistinctNames(s) && i < |s|
    ensures NetidBySid(s, s[i].name) ==
              if s[i].device.None? then None
              else Some(s[i].device.value + ".network" + NatStr(|Upto(s, s[i].device.value, i + 1)|))
  {
    assert IndexOf(s, s[i].name, 0) == i by { assert forall j :: 0 <= j < i ==> s[j].name != s[i].name; }
    if s[i].device.Some? { CountsSections(s, s[i].device.value, i + 1); }
  }

  /** The section of that name is looked up first; its place is found by its name again. */
  method GetWifiNetidBySid(sections: seq<Iface>, sid: string) returns (netid: Option<string>, radio: Option<string>)
    requires DistinctNames(sections)
    ensures netid == NetidBySid(sections, sid)
    ensures if netid.None? then radio.None?
            else exists i :: 0 <= i < |sections| && sections[i].name == sid && sections[i].device == radio && radio.Some?
  {
    var at := IndexOf(sections, sid, 0);
    if at == |sections| { return None, None; }
    var s := sections[at];
    if s.device.None? { return None, None; }
    var n := 0;
    for i := 0 to |sections|
      invariant i <= at && n == CountOf(sections, s.device.value, i)
    {
      if sections[i].device == s.device {
        n := n + 1;
        if sections[i].name == s.name {
          assert i == at;
          return Some(NetidOf(s.device.value, n)), s.device;
        }
      }
      assert i != at;
    }
    assert false;
    return None, None;
  }

  // ---- Inverses ---------------------------------------------------------------------------------

  lemma {:induction false} CountGrows(s: seq<Iface>, radio: string, m: nat, n: nat)
    requires m <= n <= |s|
    ensures CountOf(s, radio, m) <= CountOf(s, radio, n)
  {
    if m < n { CountGrows(s, radio, m, n - 1); }
  }

  /** At most one section is the n-th. */
  lemma NthOnce(s: seq<Iface>, i: nat, j: nat, radio: string, n: nat)
    requires IsNth(s, i, radio, n) && IsNth(s, j, radio, n)
    ensures i == j
  {
    if i < j { CountGrows(s, radio, i + 1, j); }
    if j < i { CountGrows(s, radio, j + 1, i); }
  }

  lemma {:induction false} FindsNth(s: seq<Iface>, radio: string, n: nat, k: nat, i: nat)
    requires k <= i && IsNth(s, i, radio, n)
    ensures FindNth(s, radio, n, k) == Some(s[i].name)
    decreases |s| - k
  {
    if IsNth(s, k, radio, n) { NthOnce(s, i, k, radio, n); } else { FindsNth(s, radio, n, k + 1, i); }
  }

  lemma {:induction false} FoundIsNth(s: seq<Iface>, radio: string, n: nat, k: nat) returns (i: nat)
    requires k <= |s| && FindNth(s, radio, n, k).Some?
    ensures IsNth(s, i, radio, n) && FindNth(s, radio, n, k) == Some(s[i].name)
    decreases |s| - k
  {
    if IsNth(s, k, radio, n) { i := k; } else { i := FoundIsNth(s, radio, n, k + 1); }
  }

  lemma DigitsHaveNoDot(digits: string)
    requires AllDigits(digits)
    ensures '.' !in "network" + digits
  {
  }

  lemma SplitNetid(radio: string, digits: string, netid: string)
    requires netid == radio + ".network" + digits && AllDigits(digits) && '.' !in radio
    ensures Split(netid, '.') == [radio, "network" + digits]
  {
    var tail := "network" + digits;
    DigitsHaveNoDot(digits);
    assert netid == radio + "." + tail;
    SplitHead(radio, '.', tail);
    SplitHead(tail, '.', "");
  }

  /** An id is read back exactly when the name of the radio is a word. */
  lemma ParsePrinted(radio: string, digits: string, netid: string)
    requires netid == radio + ".network" + digits && AllDigits(digits) && digits != ""
    ensures ParseNetid(netid) == if IsWord(radio) then Some(Netid(radio, digits)) else None
  {
    var tail := "network" + digits;
    assert tail[7..] == digits && "network" < tail;
    if '.' !in radio {
      SplitNetid(radio, digits, netid);
    } else {
      DotInRadio(radio, tail, netid);
      assert !IsWord(radio) by { assert !IsWordChar('.'); }
    }
  }

  lemma {:induction false} SplitTwice(a: string, b: string)
    requires '.' in a
    ensures |Split(a + "." + b, '.')| >= 3
  {
    assert (a + "." + b)[1..] == a[1..] + "." + b;
    if a[0] == '.' {
      if '.' in a[1..] { SplitTwice(a[1..], b); } else { SplitHead(a[1..], '.', b); }
    } else {
      SplitTwice(a[1..], b);
    }
  }

  lemma DotInRadio(radio: string, tail: string, netid: string)
    requires '.' in radio && netid == radio + "." + tail
    ensures ParseNetid(netid).None?
  {
    SplitTwice(radio, tail);
  }

  lemma IndexOfName(s: seq<Iface>, i: nat)
    requires DistinctNames(s) && i < |s|
    ensures IndexOf(s, s[i].name, 0) == i
  {
    assert forall j :: 0 <= j < i ==> s[j].name != s[i].name;
  }

  /** The id of a section leads back to it, exactly when the name of its radio is a word. */
  lemma NetidThenSid(s: seq<Iface>, sid: string)
    requires DistinctNames(s) && NetidBySid(s, sid).Some?
    ensures var i := IndexOf(s, sid, 0);
            SidByNetid(s, NetidBySid(s, sid).value) == if IsWord(s[i].device.value) then Some(sid) else None
  {
    var i := IndexOf(s, sid, 0);
    var radio, n := s[i].device.value, CountOf(s, s[i].device.value, i + 1);
    ParsePrinted(radio, NatStr(n), NetidOf(radio, n));
    if IsWord(radio) { FindsNth(s, radio, n, 0, i); }
  }

  /** A section found by an id has that id, but for leading zeros of the number. */
  lemma SidThenNetid(s: seq<Iface>, netid: string)
    requires DistinctNames(s) && SidByNetid(s, netid).Some?
    ensures var m := ParseNetid(netid).value;
            NetidBySid(s, SidByNetid(s, netid).value) == Some(NetidOf(m.radio, NatOf(m.digits)))
    ensures var m := ParseNetid(netid).value;
            NetidBySid(s, SidByNetid(s, netid).value) == Some(netid) <==> m.digits == NatStr(NatOf(m.digits))
  {
    var m := ParseNetid(netid).value;
    var i := FoundIsNth(s, m.radio, NatOf(m.digits), 0);
    IndexOfName(s, i);
    NetidParts(netid, m);
    SamePrefix(m.radio + ".network", m.digits, NatStr(NatOf(m.digits)));
  }

  lemma SamePrefix(a: string, x: string, y: string)
    ensures a + x == a + y <==> x == y
  {
    if a + x == a + y { assert (a + x)[|a|..] == x && (a + y)[|a|..] == y; }
  }

  lemma NetidParts(netid: string, m: Netid)
    requires ParseNetid(netid) == Some(m)
    ensures netid == m.radio + ".network" + m.digits
  {
    var parts := Split(netid, '.');
    JoinSplit(netid, '.');
    assert parts[1] == "network" + parts[1][7..];
    assert Join(parts, '.') == parts[0] + "." + Join(parts[1..], '.') && parts[1..] == [parts[1]];
  }
}
