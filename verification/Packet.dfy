/** What the XDP program sees in a packet (bpf/kwatch.bpf.c): Ethernet, at most one
    VLAN tag, IPv4 and the first bytes of the transport header. */
module Packet {
  import opened Words

  type Bytes = seq<u8>

  const ETH_P_IP: u16 := 0x0800
  const ETH_P_IPV6: u16 := 0x86DD
  const ETH_P_ARP: u16 := 0x0806
  const ETH_P_8021Q: u16 := 0x8100
  const ETH_P_8021AD: u16 := 0x88A8

  /** An Ethernet header that announces IPv4. */
  const IPV4_FRAME_HEADER: Bytes := [0, 0, 0, 0, 0, 0, 0, 0, 0, 0, 0, 0, 0x08, 0x00]

  const IPPROTO_ICMP: u8 := 1
  const IPPROTO_TCP: u8 := 6
  const IPPROTO_UDP: u8 := 17

  function Be16(p: Bytes, at: nat): u16
    requires at + 2 <= |p|
  {
    (p[at] as int) * 0x100 + p[at + 1]
  }

  function Be32(p: Bytes, at: nat): u32
    requires at + 4 <= |p|
  {
    TWO16 * Be16(p, at) + Be16(p, at + 2)
  }

  /** The outcome of parsing: a packet the program passes without counting it, one
      it only counts, or an IPv4 packet with everything after its header. Addresses
      are read in network order. */
  datatype Parsed =
    | Ignored
    | CountOnly(key: u32)
    | Ipv4(src: u32, dst: u32, proto: u8, ttl: u8, l4: Bytes)

  predicate IsVlan(etherType: u16) {
    etherType == ETH_P_8021Q || etherType == ETH_P_8021AD
  }

  function Parse(p: Bytes): Parsed {
    if |p| < 14 then Ignored
    else if !IsVlan(Be16(p, 12)) then ParsePayload(Be16(p, 12), p[14..])
    else if |p| < 18 then Ignored
    else ParsePayload(Be16(p, 16), p[18..])
  }

  /** A link-layer payload of the given EtherType. */
  function ParsePayload(etherType: u16, d: Bytes): Parsed {
    if etherType == ETH_P_IP then ParseIpv4(d)
    else if etherType == ETH_P_IPV6 then CountOnly(0x86DD)
    else if etherType == ETH_P_ARP then CountOnly(0x0806)
    else Ignored
  }

  /** The fixed header is complete, says version 4, and its length field, in
      32-bit words, is at least five and lies within the packet. */
  predicate ValidIpv4(d: Bytes) {
    && |d| >= 20
    && d[0] / 0x10 == 4
    && 5 <= d[0] % 0x10
    && d[0] % 0x10 * 4 <= |d|
  }

  function ParseIpv4(d: Bytes): Parsed {
    if ValidIpv4(d) then Ipv4(Be32(d, 12), Be32(d, 16), d[9], d[8], d[d[0] % 0x10 * 4..])
    else Ignored
  }

  // ----- Transport header fields, zero when the header is cut short -----

  /** The shortest transport header whose ports the program reads. */
  function PortBytes(proto: u8): nat {
    if proto == IPPROTO_TCP then 20 else if proto == IPPROTO_UDP then 8 else 0
  }

  predicate HasPorts(proto: u8, l4: Bytes) {
    0 < PortBytes(proto) <= |l4|
  }

  function SrcPort(proto: u8, l4: Bytes): u16 {
    if HasPorts(proto, l4) then Be16(l4, 0) else 0
  }

  function DstPort(proto: u8, l4: Bytes): u16 {
    if HasPorts(proto, l4) then Be16(l4, 2) else 0
  }

  function TcpFlags(proto: u8, l4: Bytes): u8 {
    if proto == IPPROTO_TCP && HasPorts(proto, l4) then l4[13] else 0
  }

  function IcmpType(proto: u8, l4: Bytes): u8 {
    if proto == IPPROTO_ICMP && |l4| >= 8 then l4[0] else 0
  }

  function IcmpCode(proto: u8, l4: Bytes): u8 {
    if proto == IPPROTO_ICMP && |l4| >= 8 then l4[1] else 0
  }

  /** `flags & 0x02` and `flags & 0x10`. */
  predicate Syn(flags: u8) {
    flags / 2 % 2 == 1
  }

  predicate Ack(flags: u8) {
    flags / 16 % 2 == 1
  }

  // ----- What is read from which bytes -----

  /** SYN is the second lowest bit of the flags byte. */
  lemma SynBit(flags: u8, high: nat, bit: nat, low: nat)
    requires flags == 4 * high + 2 * bit + low && bit < 2 && low < 2
    ensures Syn(flags) <==> bit == 1
  {
    assert flags / 2 == 2 * high + bit;
  }

  /** ACK is the fifth lowest. */
  lemma AckBit(flags: u8, high: nat, bit: nat, low: nat)
    requires flags == 32 * high + 16 * bit + low && bit < 2 && low < 16
    ensures Ack(flags) <==> bit == 1
  {
    assert flags / 16 == 2 * high + bit;
  }

  /** The frame has a VLAN tag after its addresses. */
  ghost predicate Tagged(p: Bytes) {
    |p| >= 14 && ((p[12] == 0x81 && p[13] == 0x00) || (p[12] == 0x88 && p[13] == 0xA8))
  }

  /** Where the network header of a frame begins. */
  ghost function NetworkAt(p: Bytes): nat {
    if Tagged(p) then 18 else 14
  }

  /** The two bytes before the network header announce the protocol `hi` `lo`. */
  ghost predicate Announces(p: Bytes, hi: u8, lo: u8) {
    |p| >= NetworkAt(p) && p[NetworkAt(p) - 2] == hi && p[NetworkAt(p) - 1] == lo
  }

  /** An IPv4 frame: version 4, at least five words of header, all there. */
  ghost predicate Ipv4Frame(p: Bytes) {
    && Announces(p, 0x08, 0x00)
    && |p| >= NetworkAt(p) + 20
    && 0x45 <= p[NetworkAt(p)] <= 0x4F
    && |p| >= TransportAt(p)
  }

  ghost function TransportAt(p: Bytes): int
    requires |p| > NetworkAt(p)
  {
    NetworkAt(p) + 4 * (p[NetworkAt(p)] as int - 0x40)
  }

  /** The address in the four bytes at `at`, most significant first. */
  ghost function AddressAt(p: Bytes, at: nat): int
    requires at + 4 <= |p|
  {
    0x1_0000 * PortAt(p, at) + PortAt(p, at + 2)
  }

  /** The number in the two bytes at `at`, most significant first. */
  ghost function PortAt(p: Bytes, at: nat): int
    requires at + 2 <= |p|
  {
    0x100 * (p[at] as int) + p[at + 1]
  }

  lemma TagBytes(p: Bytes)
    requires |p| >= 14
    ensures IsVlan(Be16(p, 12)) <==> Tagged(p)
    ensures L3(p) == NetworkAt(p)
  {
  }

  lemma AnnouncedType(p: Bytes, hi: u8, lo: u8)
    requires |p| >= NetworkAt(p)
    ensures Be16(p, NetworkAt(p) - 2) == 0x100 * hi + lo <==> Announces(p, hi, lo)
  {
  }

  lemma ParsesFromNetwork(p: Bytes)
    ensures Parse(p) ==
      if |p| >= NetworkAt(p) then ParsePayload(Be16(p, NetworkAt(p) - 2), p[NetworkAt(p)..]) else Ignored
  {
    if |p| >= 14 {
      TagBytes(p);
    }
  }

  lemma VersionByte(d: Bytes)
    ensures ValidIpv4(d) <==> |d| >= 20 && 0x45 <= d[0] <= 0x4F && |d| >= 4 * (d[0] as int - 0x40)
    ensures ValidIpv4(d) ==> d[0] % 0x10 == d[0] as int - 0x40
  {
  }

  /** Exactly the IPv4 frames parse as IPv4, and these bytes are what is read. */
  lemma Ipv4Fields(p: Bytes)
    ensures Parse(p).Ipv4? <==> Ipv4Frame(p)
    ensures Ipv4Frame(p) ==>
      var at := NetworkAt(p);
      Parse(p) == Ipv4(AddressAt(p, at + 12), AddressAt(p, at + 16), p[at + 9], p[at + 8], p[TransportAt(p)..])
  {
    ParsesFromNetwork(p);
    if |p| >= NetworkAt(p) {
      AnnouncedType(p, 0x08, 0x00);
      var d := p[NetworkAt(p)..];
      VersionByte(d);
      if Ipv4Frame(p) {
        assert d[4 * (d[0] as int - 0x40)..] == p[TransportAt(p)..];
      }
    }
  }

  /** Exactly the ARP and IPv6 frames are only counted, under their EtherTypes. */
  lemma CountedOnly(p: Bytes, key: u32)
    ensures Parse(p) == CountOnly(key) <==>
      (key == 0x0806 && Announces(p, 0x08, 0x06)) || (key == 0x86DD && Announces(p, 0x86, 0xDD))
  {
    ParsesFromNetwork(p);
    if |p| >= NetworkAt(p) {
      AnnouncedType(p, 0x08, 0x06);
      AnnouncedType(p, 0x86, 0xDD);
    }
  }

  /** Ports, flags and ICMP fields are at their offsets in a transport header that is all
      there, and zero otherwise. */
  lemma TransportFields(proto: u8, l4: Bytes)
    ensures (proto == 6 && |l4| >= 20) || (proto == 17 && |l4| >= 8) ==>
      SrcPort(proto, l4) == PortAt(l4, 0) && DstPort(proto, l4) == PortAt(l4, 2)
    ensures !((proto == 6 && |l4| >= 20) || (proto == 17 && |l4| >= 8)) ==>
      SrcPort(proto, l4) == 0 && DstPort(proto, l4) == 0
    ensures TcpFlags(proto, l4) == if proto == 6 && |l4| >= 20 then l4[13] else 0
    ensures IcmpType(proto, l4) == if proto == 1 && |l4| >= 8 then l4[0] else 0
    ensures IcmpCode(proto, l4) == if proto == 1 && |l4| >= 8 then l4[1] else 0
  {
  }

  // ----- Encapsulation transparency -----

  /** The packet with one VLAN tag pushed between the addresses and the EtherType. */
  function PushTag(p: Bytes, tpid: u16, tci: Bytes): Bytes
    requires |p| >= 14 && |tci| == 2
  {
    p[..12] + [tpid / 0x100, tpid % 0x100] + tci + p[12..]
  }

  /** A tag on an untagged frame is invisible to the parser. */
  lemma VlanTagIsTransparent(p: Bytes, tpid: u16, tci: Bytes)
    requires |p| >= 14 && |tci| == 2 && (tpid == 0x8100 || tpid == 0x88A8)
    requires !IsVlan(Be16(p, 12))
    ensures Parse(PushTag(p, tpid, tci)) == Parse(p)
  {
    var q := PushTag(p, tpid, tci);
    assert Be16(q, 12) == tpid;
    assert Be16(q, 16) == Be16(p, 12);
    assert q[18..] == p[14..];
  }

  /** On a frame that already carries a tag, a second one hides the whole payload. */
  lemma SecondTagHidesPayload(p: Bytes, tpid: u16, tci: Bytes)
    requires |p| >= 14 && |tci| == 2 && (tpid == 0x8100 || tpid == 0x88A8)
    requires IsVlan(Be16(p, 12))
    ensures Parse(PushTag(p, tpid, tci)) == Ignored
  {
    var q := PushTag(p, tpid, tci);
    assert Be16(q, 12) == tpid;
    assert Be16(q, 16) == Be16(p, 12);
  }

  /** So a tag is invisible if and only if it is the first, or the frame shows nothing to
      the parser anyway. */
  lemma TagIsTransparentIff(p: Bytes, tpid: u16, tci: Bytes)
    requires |p| >= 14 && |tci| == 2 && (tpid == 0x8100 || tpid == 0x88A8)
    ensures Parse(PushTag(p, tpid, tci)) == Parse(p) <==> !IsVlan(Be16(p, 12)) || Parse(p) == Ignored
  {
    if IsVlan(Be16(p, 12)) {
      SecondTagHidesPayload(p, tpid, tci);
    } else {
      VlanTagIsTransparent(p, tpid, tci);
    }
  }

  /** An ARP frame with one tag. */
  const TAGGED_ARP: Bytes := [0, 0, 0, 0, 0, 0, 0, 0, 0, 0, 0, 0, 0x81, 0x00, 0, 1, 0x08, 0x06]

  /** It is counted, and with a second tag it is not. */
  lemma SecondTagHidesArp(tpid: u16, tci: Bytes)
    requires |tci| == 2 && (tpid == 0x8100 || tpid == 0x88A8)
    ensures Parse(TAGGED_ARP) == CountOnly(0x0806) && Parse(PushTag(TAGGED_ARP, tpid, tci)) == Ignored
  {
    assert Be16(TAGGED_ARP, 12) == ETH_P_8021Q && Be16(TAGGED_ARP, 16) == ETH_P_ARP;
    SecondTagHidesPayload(TAGGED_ARP, tpid, tci);
  }

  /** The offset of the network header of a packet that parses as IPv4. */
  function L3(p: Bytes): nat
    requires |p| >= 14
  {
    if IsVlan(Be16(p, 12)) then 18 else 14
  }

  /** A header and payload with whole words of options inserted after `keep` words of
      the header, and the header length raised to match. */
  function WithOptions(d: Bytes, keep: nat, options: Bytes): Bytes
    requires ValidIpv4(d)
    requires 5 <= keep <= d[0] % 0x10
    requires |options| % 4 == 0 && d[0] % 0x10 + |options| / 4 <= 15
  {
    [d[0] + |options| / 4] + d[1..4 * keep] + options + d[4 * keep..]
  }

  /** Inserting options leaves everything the parser takes from the header, and the
      payload, as it was. */
  lemma OptionsInHeader(d: Bytes, keep: nat, options: Bytes)
    requires ValidIpv4(d)
    requires 5 <= keep <= d[0] % 0x10
    requires |options| % 4 == 0 && d[0] % 0x10 + |options| / 4 <= 15
    ensures ParseIpv4(WithOptions(d, keep, options)) == ParseIpv4(d)
  {
    var e := WithOptions(d, keep, options);
    var ihl, more := d[0] % 0x10, |options| / 4;
    assert e[0] / 0x10 == 4 && e[0] % 0x10 == ihl + more;
    assert forall i :: 1 <= i < 20 ==> e[i] == d[i];
    assert |e| == |d| + 4 * more;
    assert e[(ihl + more) * 4..] == d[ihl * 4..];
  }

  /** What follows the link-layer header of a packet that parses as IPv4. */
  lemma Ipv4Payload(p: Bytes)
    requires Parse(p).Ipv4?
    ensures L3(p) <= |p| && ValidIpv4(p[L3(p)..]) && Parse(p) == ParseIpv4(p[L3(p)..])
  {
  }

  /** The packet with options inserted into its IPv4 header. */
  function InsertOptions(p: Bytes, keep: nat, options: Bytes): Bytes
    requires Parse(p).Ipv4?
    requires 5 <= keep <= p[L3(p)] % 0x10
    requires |options| % 4 == 0 && p[L3(p)] % 0x10 + |options| / 4 <= 15
  {
    Ipv4Payload(p);
    p[..L3(p)] + WithOptions(p[L3(p)..], keep, options)
  }

  lemma OptionsAreTransparent(p: Bytes, keep: nat, options: Bytes)
    requires Parse(p).Ipv4?
    requires 5 <= keep <= p[L3(p)] % 0x10
    requires |options| % 4 == 0 && p[L3(p)] % 0x10 + |options| / 4 <= 15
    ensures Parse(InsertOptions(p, keep, options)) == Parse(p)
  {
    Ipv4Payload(p);
    var q, at := InsertOptions(p, keep, options), L3(p);
    OptionsInHeader(p[at..], keep, options);
    assert q[at..] == WithOptions(p[at..], keep, options);
    assert Be16(q, 12) == Be16(p, 12);
    if at == 18 {
      assert Be16(q, 16) == Be16(p, 16);
    }
  }
}
