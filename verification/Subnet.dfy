/**
 * Network and broadcast addresses of IPv4 subnets, from the text of an address and of a mask or prefix.
 *
 * The bytes are computed by the source's 32-bit expressions; what they mean for the whole address is told
 * by numbers: the network is the quotient, the broadcast address the end of its block.
 */
module Subnet {
  import opened Common
  import opened Bits
  import opened PrefixNumbers
  import opened IpText
  import opened Masks
  import opened Strings

  // ---- One byte ---------------------------------------------------------------------------------

  /** `a & (m >>> 0 & 255)` on bytes. */
  function NetByte(a: nat, m: nat): nat { BitAnd(a, m) }

  /** `a | (~m >>> 0 & 255)` on bytes. */
  function BroadByte(a: nat, m: nat): nat
    requires m < 0x100
  {
    BitOr(a, 0xff - m)
  }

  lemma NetByteIsSource(a: nat, m: nat, byte: nat)
    requires a < 0x100 && m < 0x100 && byte == NetByte(a, m)
    ensures And(a, And(UShr(m, 0), 0xff)) == byte
  {
    ByteOfMask(m);
    Small(a);
    Small(byte);
  }

  lemma BroadByteIsSource(a: nat, m: nat, byte: nat)
    requires a < 0x100 && m < 0x100 && byte == BroadByte(a, m)
    ensures Or(a, And(UShr(Not(m), 0), 0xff)) == byte
  {
    ByteOfComplement(m);
    Small(a);
    Small(0xff - m);
    Small(byte);
  }

  lemma ByteOfMask(m: nat)
    requires m < 0x100
    ensures And(UShr(m, 0), 0xff) == m && ToUint32(m) == m
  {
    Pow2Values();
    Small(m);
    AndOnesInt(m, 8, 0xff);
    HighUnique(m, 8, 0, m);
  }

  lemma ByteOfComplement(m: nat)
    requires m < 0x100
    ensures And(UShr(Not(m), 0), 0xff) == 0xff - m
  {
    var flipped := 0xffff_ffff - m;
    Small(m);
    assert UShr(Not(m), 0) == flipped;
    LowByteOf(flipped, 0xff_ffff, 0xff - m);
  }

  lemma LowByteOf(x: nat, q: nat, r: nat)
    requires x < 0x1_0000_0000 && x == q * 0x100 + r && r < 0x100
    ensures And(x, 0xff) == r
  {
    Pow2Values();
    assert ToUint32(x) == x;
    AndOnesInt(x, 8, 0xff);
    HighUnique(x, 8, q, r);
  }

  /** With k leading ones in the mask, the j bits below are cleared or filled. */
  lemma BytesUnderOnes(a: nat, m: nat, k: nat, j: nat, rest: nat, net: nat, broad: nat)
    requires a < 0x100 && k + j == 8 && m == Ones(8, k) && rest == 0xff - m
    requires net == BitAnd(a, m) && broad == BitOr(a, rest)
    ensures Cleared(net, broad, a, j) && net < 0x100 && broad < 0x100
  {
    Pow2Values();
    OnesValue(8, k);
    assert m == 0x100 - Pow2(j);
    AndHighOnes(a, j, 8, m);
    HighUnique(a, 8, 0, a);
    OrOnes(a, j, rest);
    OrBound(a, rest, 8, 0x100);
  }

  // ---- Whole addresses --------------------------------------------------------------------------

  function NetOctets(a: seq<nat>, m: seq<nat>): (r: seq<nat>)
    requires |a| == |m|
    ensures |r| == |a|
  {
    seq(|a|, i requires 0 <= i < |a| => NetByte(a[i], m[i]))
  }

  function BroadOctets(a: seq<nat>, m: seq<nat>): (r: seq<nat>)
    requires |a| == |m| && AreBytes(m)
    ensures |r| == |a|
  {
    seq(|a|, i requires 0 <= i < |a| => BroadByte(a[i], m[i]))
  }

  // ---- From text --------------------------------------------------------------------------------

  /** Reading a mask: text that converts to a number is a prefix, and a prefix over 32 has no mask to read. */
  datatype MaskRead = Octets(octets: seq<nat>) | NoMask | Fails

  function ReadMask(mask: string): (r: MaskRead)
    ensures r.Octets? ==> |r.octets| == 4 && AreBytes(r.octets)
  {
    if AllDigits(mask) then
      var text := MaskText(NatOf(mask), false);
      if text.None? then Fails else FromParsed(ParseIPv4(text.value))
    else FromParsed(ParseIPv4(mask))
  }

  function FromParsed(p: Option<seq<nat>>): (r: MaskRead)
    requires p.Some? ==> |p.value| == 4 && forall w :: w in p.value ==> w <= 255
    ensures r.Octets? ==> p.Some? && r.octets == p.value && |r.octets| == 4 && AreBytes(r.octets)
  {
    if p.None? then NoMask else assert forall i :: 0 <= i < 4 ==> p.value[i] in p.value; Octets(p.value)
  }

  datatype Network = Network(network: string, netmask: string) | NoNetwork | Error

  function NetworkOf(a: MaskRead, m: MaskRead): Network
    requires (a.Octets? ==> |a.octets| == 4) && (m.Octets? ==> |m.octets| == 4)
  {
    if m.Fails? then Error
    else if a.Octets? && m.Octets? then Network(Dotted(NetOctets(a.octets, m.octets)), Dotted(m.octets))
    else NoNetwork
  }

  function CalculateNetwork(address: string, mask: string): Network {
    NetworkOf(FromParsed(ParseIPv4(address)), ReadMask(mask))
  }

  datatype Broadcast = Broadcast(text: string) | NoSubnet | Broken

  /** The subnet to use: the first address with the mask of the form, or the first address that has its own. */
  function FirstSubnet(addresses: seq<string>, netmask: string): Option<string> {
    if netmask != "" then Some((if addresses == [] then "undefined" else addresses[0]) + "/" + netmask)
    else FirstWithSlash(addresses)
  }

  function FirstWithSlash(addresses: seq<string>): Option<string> {
    if addresses == [] then None
    else if addresses[0] != "" && addresses[0][0] != '/' && '/' in addresses[0] then Some(addresses[0])
    else FirstWithSlash(addresses[1..])
  }

  function CalculateBroadcast(addresses: seq<string>, netmask: string): Broadcast {
    var subnet := FirstSubnet(addresses, netmask);
    if subnet.None? then NoSubnet
    else
      var parts := Split(subnet.value, '/');
      BroadcastOf(parts[0], if |parts| > 1 then Some(parts[1]) else None)
  }

  function BroadcastOf(address: string, mask: Option<string>): Broadcast {
    LastOf(FromParsed(ParseIPv4(address)), if mask.None? then NoMask else ReadMask(mask.value))
  }

  function LastOf(a: MaskRead, m: MaskRead): Broadcast
    requires (a.Octets? ==> |a.octets| == 4) && (m.Octets? ==> |m.octets| == 4 && AreBytes(m.octets))
  {
    if a.Octets? && m.Octets? then Broadcast(Dotted(BroadOctets(a.octets, m.octets))) else Broken
  }

  // ---- What the texts say -----------------------------------------------------------------------

  /** The number an address text stands for. */
  ghost predicate Denotes(text: string, x: int) {
    ParseIPv4(text).Some? && Number(ParseIPv4(text).value, false) == x
  }

  /** A mask text that stands for p leading ones: a prefix in digits, or the dotted mask. */
  ghost predicate IsPrefix(mask: string, p: nat) {
    p <= 32 && if AllDigits(mask) then NatOf(mask) == p else Denotes(mask, Ones(32, p))
  }

  lemma ReadPrefix(mask: string, p: nat)
    requires IsPrefix(mask, p)
    ensures ReadMask(mask).Octets? && ReadMask(mask).octets == PrefixWords(p, Width(false), Count(false))
  {
    if AllDigits(mask) {
      MaskTextReads(p, false);
    } else {
      ParsedFits(mask, false);
      SameAsPrefix(ParseIPv4(mask).value, p, false);
    }
  }

  // ---- The two calculations ---------------------------------------------------------------------

  /** One byte under the part of a prefix that reaches it. */
  lemma ByteCleared(a: nat, m: nat, k: nat, j: nat, net: nat, broad: nat)
    requires a < 0x100 && m < 0x100 && k + j == 8 && m == Ones(8, k) && net == NetByte(a, m) && broad == BroadByte(a, m)
    ensures Cleared(net, broad, a, j) && net < 0x100 && broad < 0x100
  {
    BytesUnderOnes(a, m, k, j, 0xff - m, net, broad);
  }

  lemma OctetCleared(a: seq<nat>, m: seq<nat>, p: nat, net: seq<nat>, broad: seq<nat>, i: nat, j: nat)
    requires AreBytes(a) && m == PrefixWords(p, 8, |a|) && AreBytes(m) && i < |a| && j == Outside(p, i)
    requires net == NetOctets(a, m) && broad == BroadOctets(a, m)
    ensures net[i] < 0x100 && broad[i] < 0x100 && Cleared(net[i], broad[i], a[i], j)
  {
    PrefixWordsAt(p, 8, |a|, i, i * 8);
    assert 8 - j == Part(if p < i * 8 then 0 else p - i * 8, 8);
    assert net[i] == NetByte(a[i], m[i]) && broad[i] == BroadByte(a[i], m[i]) && a[i] < 0x100 && m[i] < 0x100;
    hide *;
    ByteCleared(a[i], m[i], 8 - j, j, net[i], broad[i]);
  }

  lemma {:induction false} OctetsCleared(a: seq<nat>, m: seq<nat>, p: nat, net: seq<nat>, broad: seq<nat>)
    requires AreBytes(a) && m == PrefixWords(p, 8, |a|) && AreBytes(m)
    requires net == NetOctets(a, m) && broad == BroadOctets(a, m)
    ensures AreBytes(net) && AreBytes(broad) && Bytewise(a, net, broad, p)
  {
    assert |net| == |broad| == |a|;
    hide PrefixWords, NetOctets, BroadOctets, Outside, Cleared;
    forall i | 0 <= i < |a|
      ensures net[i] < 0x100
      ensures broad[i] < 0x100
      ensures ClearedAt(a, net, broad, p, i)
    {
      OctetCleared(a, m, p, net, broad, i, Outside(p, i));
    }
  }

  /** Both results as numbers. */
  lemma OctetNumbers(a: seq<nat>, m: seq<nat>, p: nat, net: seq<nat>, broad: seq<nat>, bits: nat)
    requires AreBytes(a) && m == PrefixWords(p, 8, |a|) && AreBytes(m) && p + bits == 8 * |a|
    requires net == NetOctets(a, m) && broad == BroadOctets(a, m)
    ensures AreBytes(net) && AreBytes(broad)
    ensures Cleared(BigEndian(net, 8), BigEndian(broad, 8), BigEndian(a, 8), bits)
  {
    OctetsCleared(a, m, p, net, broad);
    NetNumber(a, net, broad, p, bits);
  }

  lemma ReadAddress(address: string)
    requires ParseIPv4(address).Some?
    ensures FromParsed(ParseIPv4(address)) == Octets(ParseIPv4(address).value)
  {
  }

  // ---- Numbers as dotted text -------------------------------------------------------------------

  /** The four bytes of a 32-bit number, and its dotted text. */
  function OctetsOf(n: nat): (o: seq<nat>)
    ensures |o| == 4
  {
    var high, low := n / 0x1_0000, n % 0x1_0000;
    [high / 0x100, high % 0x100, low / 0x100, low % 0x100]
  }

  function AddressText(n: nat): string { Dotted(OctetsOf(n)) }

  lemma FourDigits(o: seq<nat>, n: nat)
    requires |o| == 4 && AreBytes(o)
    requires n == o[0] * 0x100_0000 + o[1] * 0x1_0000 + o[2] * 0x100 + o[3]
    ensures o == OctetsOf(n)
  {
    var high, low := o[0] * 0x100 + o[1], o[2] * 0x100 + o[3];
    DivUnique(n, 0x1_0000, high, low);
    DivUnique(high, 0x100, o[0], o[1]);
    DivUnique(low, 0x100, o[2], o[3]);
  }

  lemma OctetsAreBytes(n: nat, high: nat, low: nat)
    requires n < 0x1_0000_0000 && high == n / 0x1_0000 && low == n % 0x1_0000
    ensures AreBytes(OctetsOf(n))
    ensures n == 0x1_0000 * high + low && high == 0x100 * (high / 0x100) + high % 0x100
    ensures low == 0x100 * (low / 0x100) + low % 0x100
  {
  }

  lemma FourBytesNumber(o: seq<nat>)
    requires |o| == 4
    ensures BigEndian(o, 8) == o[0] * 0x100_0000 + o[1] * 0x1_0000 + o[2] * 0x100 + o[3]
  {
    Pow2Values();
    Pow2Add(8, 16);
    var b, c, d := o[1..], o[2..], o[3..];
    assert b[1..] == c && c[1..] == d && d[1..] == [];
    TopByte(o, 24);
    TopByte(b, 16);
    TopByte(c, 8);
    TopByte(d, 0);
  }

  /** Four bytes are the bytes of their number, so their text is the text of it. */
  lemma DottedIsText(o: seq<nat>, n: nat)
    requires |o| == 4 && AreBytes(o) && n == BigEndian(o, 8)
    ensures Dotted(o) == AddressText(n)
  {
    FourBytesNumber(o);
    FourDigits(o, n);
  }

  /** Different addresses have different texts. */
  lemma AddressTextOnce(x: nat, y: nat)
    requires x < 0x1_0000_0000 && y < 0x1_0000_0000 && AddressText(x) == AddressText(y)
    ensures x == y
  {
    OctetsAreBytes(x, x / 0x1_0000, x % 0x1_0000);
    OctetsAreBytes(y, y / 0x1_0000, y % 0x1_0000);
    SameOctets(OctetsOf(x), OctetsOf(y));
  }

  lemma SameOctets(a: seq<nat>, b: seq<nat>)
    requires |a| == |b| == 4 && AreBytes(a) && AreBytes(b) && Dotted(a) == Dotted(b)
    ensures a == b && a[0] == b[0] && a[1] == b[1] && a[2] == b[2] && a[3] == b[3]
  {
    DottedReads(a);
    DottedReads(b);
  }

  // ---- Subnets ----------------------------------------------------------------------------------

  /** Address x lies in subnet q of the subnets of one size; `first` is the first address of that subnet. */
  ghost predicate InSubnet(x: nat, size: nat, q: nat, first: nat) { first == q * size && first <= x < first + size }

  /** There is one such subnet: q is the quotient, and the remainder is taken off the address. */
  lemma InSubnetIsDivision(x: nat, size: nat, q: nat, first: nat)
    requires size > 0
    ensures InSubnet(x, size, q, first) <==> q == x / size && first == x - x % size
  {
    if InSubnet(x, size, q, first) { DivUnique(x, size, q, x - first); }
  }

  lemma FirstAndLast(x: nat, bits: nat, size: nat, q: nat, first: nat)
    requires size == Pow2(bits) && InSubnet(x, size, q, first)
    ensures Cleared(first, first + size - 1, x, bits)
  {
    HighUnique(x, bits, q, x - first);
  }

  /** The two results for an address x and a prefix of p bits. */
  lemma ResultParts(a: seq<nat>, m: seq<nat>, net: seq<nat>, broad: seq<nat>, p: nat, bits: nat, first: nat, last: nat,
                    mask: nat)
    requires |a| == |m| == 4 && AreBytes(a) && AreBytes(m) && m == PrefixWords(p, 8, |a|) && p + bits == 32
    requires mask == BigEndian(m, 8) && Cleared(first, last, BigEndian(a, 8), bits)
    requires net == NetOctets(a, m) && broad == BroadOctets(a, m)
    ensures Dotted(net) == AddressText(first) && Dotted(broad) == AddressText(last) && Dotted(m) == AddressText(mask)
  {
    OctetNumbers(a, m, p, net, broad, bits);
    ThreeTexts(net, broad, m, first, last, mask);
  }

  lemma ResultOfPrefix(a: MaskRead, m: MaskRead, p: nat, bits: nat, first: nat, last: nat, mask: nat)
    requires a.Octets? && m.Octets? && |a.octets| == |m.octets| == 4 && AreBytes(a.octets) && AreBytes(m.octets)
    requires m.octets == PrefixWords(p, 8, |a.octets|) && p + bits == 32 && mask == BigEndian(m.octets, 8)
    requires Cleared(first, last, BigEndian(a.octets, 8), bits)
    ensures NetworkOf(a, m) == Network(AddressText(first), AddressText(mask))
    ensures LastOf(a, m) == Broadcast(AddressText(last))
  {
    ResultParts(a.octets, m.octets, NetOctets(a.octets, m.octets), BroadOctets(a.octets, m.octets), p, bits, first, last,
                mask);
  }

  lemma MaskNumber(m: seq<nat>, p: nat, ones: nat, count: nat)
    requires p <= 32 && count == 4 && m == PrefixWords(p, 8, count) && ones == Ones(32, p)
    ensures BigEndian(m, 8) == ones
  {
    PrefixWordsAreOnes(p, 8, count, 32);
  }

  lemma ThreeTexts(s: seq<nat>, t: seq<nat>, u: seq<nat>, x: nat, y: nat, z: nat)
    requires |s| == |t| == |u| == 4 && AreBytes(s) && AreBytes(t) && AreBytes(u)
    requires x == BigEndian(s, 8) && y == BigEndian(t, 8) && z == BigEndian(u, 8)
    ensures Dotted(s) == AddressText(x) && Dotted(t) == AddressText(y) && Dotted(u) == AddressText(z)
  {
    DottedIsText(s, x);
    DottedIsText(t, y);
    DottedIsText(u, z);
  }

  lemma BothResults(a: MaskRead, m: MaskRead, x: nat, p: nat, bits: nat, size: nat, q: nat, first: nat, last: nat,
                    mask: nat, count: nat)
    requires a.Octets? && m.Octets? && |a.octets| == |m.octets| == count == 4
    requires AreBytes(a.octets) && AreBytes(m.octets) && m.octets == PrefixWords(p, 8, count) && p + bits == 32
    requires x == BigEndian(a.octets, 8) && mask == Ones(32, p)
    requires size == Pow2(bits) && InSubnet(x, size, q, first) && last == first + size - 1
    ensures NetworkOf(a, m) == Network(AddressText(first), AddressText(mask))
    ensures LastOf(a, m) == Broadcast(AddressText(last))
  {
    MaskNumber(m.octets, p, mask, count);
    FirstAndLast(x, bits, size, q, first);
    ResultOfPrefix(a, m, p, bits, first, last, mask);
  }

  /** What is read of the two texts. */
  lemma BothRead(address: string, x: nat, mask: string, p: nat, a: MaskRead, m: MaskRead, width: nat, count: nat)
    requires Denotes(address, x) && IsPrefix(mask, p) && a == FromParsed(ParseIPv4(address)) && m == ReadMask(mask)
    requires width == Width(false) && count == Count(false)
    ensures p <= 32 && width == 8 && count == 4 && a.Octets? && m.Octets? && |a.octets| == |m.octets| == 4
    ensures AreBytes(a.octets) && AreBytes(m.octets) && m.octets == PrefixWords(p, width, count)
    ensures x == BigEndian(a.octets, width)
    ensures CalculateNetwork(address, mask) == NetworkOf(a, m) && BroadcastOf(address, Some(mask)) == LastOf(a, m)
  {
    hide ParseIPv4, ReadMask, NatOf, Ones, PrefixWords, BigEndian, NetworkOf, LastOf;
    ReadPrefix(mask, p);
    ReadAddress(address);
  }

  /** The network is the first address of the subnet, the address without its remainder. */
  lemma NetworkOfPrefix(address: string, x: nat, mask: string, p: nat, size: nat, q: nat, first: nat)
    requires Denotes(address, x) && IsPrefix(mask, p) && size == Pow2(32 - p) && InSubnet(x, size, q, first)
    ensures CalculateNetwork(address, mask) == Network(AddressText(first), AddressText(Ones(32, p)))
    ensures q == x / size && first == x - x % size
  {
    hide *;
    var a, m, width, count := FromParsed(ParseIPv4(address)), ReadMask(mask), Width(false), Count(false);
    InSubnetIsDivision(x, size, q, first);
    BothRead(address, x, mask, p, a, m, width, count);
    BothResults(a, m, x, p, 32 - p, size, q, first, first + size - 1, Ones(32, p), count);
  }

  /** The broadcast address is the last address of the subnet. */
  lemma BroadcastOfPrefix(address: string, x: nat, mask: string, p: nat, size: nat, q: nat, first: nat, last: nat)
    requires Denotes(address, x) && IsPrefix(mask, p) && size == Pow2(32 - p) && InSubnet(x, size, q, first)
    requires last == first + size - 1
    ensures BroadcastOf(address, Some(mask)) == Broadcast(AddressText(last))
    ensures last == x - x % size + size - 1
  {
    hide *;
    var a, m, width, count := FromParsed(ParseIPv4(address)), ReadMask(mask), Width(false), Count(false);
    InSubnetIsDivision(x, size, q, first);
    BothRead(address, x, mask, p, a, m, width, count);
    BothResults(a, m, x, p, 32 - p, size, q, first, last, Ones(32, p), count);
  }

  lemma QuadHasNoSlash(quad: string)
    requires ParseIPv4(quad).Some?
    ensures '/' !in quad
  {
    SplitParts(quad, '.');
    forall part | part in Split(quad, '.') ensures '/' !in part { assert IsQuadPart(part); }
  }

  lemma MaskHasNoSlash(mask: string, p: nat)
    requires IsPrefix(mask, p)
    ensures '/' !in mask
  {
    if !AllDigits(mask) { QuadHasNoSlash(mask); }
  }

  lemma SplitSubnet(address: string, mask: string, subnet: string)
    requires subnet == address + "/" + mask && '/' !in address && '/' !in mask
    ensures Split(subnet, '/') == [address, mask]
  {
    SplitHead(address, '/', mask);
    SplitHead(mask, '/', "");
  }

  /** The same for the subnet that the form gives. */
  lemma BroadcastOfForm(addresses: seq<string>, netmask: string, address: string, x: nat, mask: string, p: nat,
                        size: nat, q: nat, first: nat, last: nat)
    requires FirstSubnet(addresses, netmask) == Some(address + "/" + mask)
    requires Denotes(address, x) && IsPrefix(mask, p) && size == Pow2(32 - p) && InSubnet(x, size, q, first)
    requires last == first + size - 1
    ensures CalculateBroadcast(addresses, netmask) == Broadcast(AddressText(last))
  {
    QuadHasNoSlash(address);
    MaskHasNoSlash(mask, p);
    SplitSubnet(address, mask, FirstSubnet(addresses, netmask).value);
    BroadcastOfPrefix(address, x, mask, p, size, q, first, last);
    assert CalculateBroadcast(addresses, netmask) == BroadcastOf(address, Some(mask));
  }

  // ---- Subnets as sets of addresses -------------------------------------------------------------

  lemma SameSubnet(x: nat, y: nat, size: nat, q: nat, s: nat, first: nat, other: nat)
    requires InSubnet(x, size, q, first) && InSubnet(y, size, s, other)
    ensures first == other <==> q == s
    ensures q == s <==> first <= y < first + size
  {
    if q < s { MulOrder(q + 1, s, size); } else if s < q { MulOrder(s + 1, q, size); }
    assert (q + 1) * size == q * size + size && (s + 1) * size == s * size + size;
  }

  lemma DenotesBound(text: string, x: nat)
    requires Denotes(text, x)
    ensures x < 0x1_0000_0000
  {
    ParsedFits(text, false);
    BigEndianBound(ParseIPv4(text).value, 8, 32);
    Pow2Values();
  }

  /**
   * Two addresses have the same network text exactly when the bits above the prefix agree, and exactly when
   * the second lies between the network and the broadcast address of the first.
   */
  lemma SameNetwork(a: string, x: nat, b: string, y: nat, mask: string, p: nat, size: nat, q: nat, s: nat,
                    first: nat, other: nat)
    requires Denotes(a, x) && Denotes(b, y) && IsPrefix(mask, p) && size == Pow2(32 - p)
    requires InSubnet(x, size, q, first) && InSubnet(y, size, s, other)
    ensures CalculateNetwork(a, mask) == CalculateNetwork(b, mask) <==> q == s
    ensures q == s <==> first <= y <= first + size - 1
  {
    NetworkOfPrefix(a, x, mask, p, size, q, first);
    NetworkOfPrefix(b, y, mask, p, size, s, other);
    SameSubnet(x, y, size, q, s, first, other);
    DenotesBound(a, x);
    DenotesBound(b, y);
    if AddressText(first) == AddressText(other) { AddressTextOnce(first, other); }
  }

  /** A prefix over 32 is an error, whatever the address; otherwise there is no network for what cannot be read. */
  lemma WhenNoNetwork(address: string, mask: string)
    ensures CalculateNetwork(address, mask).Error? <==> AllDigits(mask) && NatOf(mask) > 32
    ensures CalculateNetwork(address, mask).NoNetwork? <==>
              if AllDigits(mask) then NatOf(mask) <= 32 && ParseIPv4(address).None?
              else ParseIPv4(address).None? || ParseIPv4(mask).None?
  {
    if AllDigits(mask) && NatOf(mask) <= 32 { MaskTextReads(NatOf(mask), false); }
  }

  predicate HasInnerSlash(address: string) { address != "" && address[0] != '/' && '/' in address }

  /** Without a mask in the form, the subnet is the first address that has a mask of its own. */
  lemma {:induction false} FirstWithSlashIsFirst(addresses: seq<string>)
    ensures FirstWithSlash(addresses).None? ==> forall i :: 0 <= i < |addresses| ==> !HasInnerSlash(addresses[i])
    ensures FirstWithSlash(addresses).Some? ==>
              exists i :: 0 <= i < |addresses| && addresses[i] == FirstWithSlash(addresses).value &&
                          HasInnerSlash(addresses[i]) && forall j :: 0 <= j < i ==> !HasInnerSlash(addresses[j])
  {
    if addresses != [] && !HasInnerSlash(addresses[0]) {
      var rest := addresses[1..];
      FirstWithSlashIsFirst(rest);
      if FirstWithSlash(rest).Some? {
        var i :| 0 <= i < |rest| && rest[i] == FirstWithSlash(rest).value && HasInnerSlash(rest[i]) &&
                 forall j :: 0 <= j < i ==> !HasInnerSlash(rest[j]);
        assert addresses[i + 1] == rest[i] && forall j :: 0 < j < i + 1 ==> addresses[j] == rest[j - 1];
      }
    }
  }
}
