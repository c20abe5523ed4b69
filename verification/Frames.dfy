/** What the XDP program does with a frame, told from the frame's bytes alone: its verdict,
    the counter and flow it feeds, and the event it reports. */
module Frames {
  import opened Words
  import opened Packet
  import opened Xdp
  import XdpRuns

  ghost function SourceOf(p: Bytes): int
    requires Ipv4Frame(p)
  {
    AddressAt(p, NetworkAt(p) + 12)
  }

  ghost function DestinationOf(p: Bytes): int
    requires Ipv4Frame(p)
  {
    AddressAt(p, NetworkAt(p) + 16)
  }

  ghost function ProtocolOf(p: Bytes): u8
    requires Ipv4Frame(p)
  {
    p[NetworkAt(p) + 9]
  }

  ghost function TtlOf(p: Bytes): u8
    requires Ipv4Frame(p)
  {
    p[NetworkAt(p) + 8]
  }

  /** The frame holds at least `n` bytes of a transport header of the protocol. */
  ghost predicate Carries(p: Bytes, proto: u8, n: nat)
    requires Ipv4Frame(p)
  {
    ProtocolOf(p) == proto && |p| >= TransportAt(p) + n
  }

  ghost predicate HasTcp(p: Bytes)
    requires Ipv4Frame(p)
  {
    Carries(p, 6, 20)
  }

  ghost predicate HasUdp(p: Bytes)
    requires Ipv4Frame(p)
  {
    Carries(p, 17, 8)
  }

  ghost predicate HasIcmp(p: Bytes)
    requires Ipv4Frame(p)
  {
    Carries(p, 1, 8)
  }

  /** The ports of a frame with a TCP or UDP header, zero otherwise. */
  ghost predicate PortsOf(p: Bytes, sport: u16, dport: u16)
    requires Ipv4Frame(p)
  {
    if HasTcp(p) || HasUdp(p)
    then sport == PortAt(p, TransportAt(p)) && dport == PortAt(p, TransportAt(p) + 2)
    else sport == 0 && dport == 0
  }

  ghost function FlagsOf(p: Bytes): u8
    requires Ipv4Frame(p)
  {
    if HasTcp(p) then p[TransportAt(p) + 13] else 0
  }

  lemma TransportBytes(p: Bytes)
    requires Ipv4Frame(p)
    ensures var pkt := Parse(p);
      && pkt.Ipv4? && pkt.src == SourceOf(p) && pkt.dst == DestinationOf(p)
      && pkt.proto == ProtocolOf(p) && pkt.ttl == TtlOf(p)
      && PortsOf(p, SrcPort(pkt.proto, pkt.l4), DstPort(pkt.proto, pkt.l4))
      && TcpFlags(pkt.proto, pkt.l4) == FlagsOf(p)
      && IcmpType(pkt.proto, pkt.l4) == (if HasIcmp(p) then p[TransportAt(p)] else 0)
      && IcmpCode(pkt.proto, pkt.l4) == (if HasIcmp(p) then p[TransportAt(p) + 1] else 0)
  {
    Ipv4Fields(p);
    TransportFields(ProtocolOf(p), p[TransportAt(p)..]);
  }

  // ----- Verdict, counter, flow -----

  /** The frame comes from an address in the range of a blacklist entry. */
  ghost predicate FromListed(k: Kernel, p: Bytes) {
    Ipv4Frame(p) && exists e :: e in k.blacklist && InRange(e, SourceOf(p))
  }

  /** Exactly those frames are dropped. */
  lemma DroppedIff(k: Kernel, p: Bytes)
    ensures VerdictOf(k, p) == Drop <==> FromListed(k, p)
  {
    Ipv4Fields(p);
    if Ipv4Frame(p) {
      TransportBytes(p);
      forall e ensures Covers(e, SourceOf(p)) <==> InRange(e, SourceOf(p)) {
        PrefixRange(e, SourceOf(p));
      }
    }
  }

  /** A frame is counted under 0xFFFF if it is dropped, under its protocol if it is another
      IPv4 frame, under its EtherType if it is ARP or IPv6, and not at all otherwise. */
  lemma CountedUnder(k: Kernel, p: Bytes, key: u32)
    ensures XdpRuns.CountedAs(k, p) == multiset{key} <==>
      if FromListed(k, p) then key == 0xFFFF
      else if Ipv4Frame(p) then key == ProtocolOf(p)
      else (key == 0x0806 && Announces(p, 0x08, 0x06)) || (key == 0x86DD && Announces(p, 0x86, 0xDD))
  {
    DroppedIff(k, p);
    Ipv4Fields(p);
    CountedOnly(p, key);
    if Ipv4Frame(p) {
      TransportBytes(p);
      var own: u32 := if FromListed(k, p) then 0xFFFF else ProtocolOf(p);
      assert XdpRuns.CountedAs(k, p) == multiset{own};
      OneOf(own, key);
    } else if Parse(p).CountOnly? {
      OneOf(Parse(p).key, key);
    }
  }

  lemma OneOf(a: u32, b: u32)
    ensures multiset{a} == multiset{b} <==> a == b
  {
    assert a in multiset{a};
  }

  /** A dropped frame leaves the flows alone; any other IPv4 frame feeds the flow of its
      addresses, ports and protocol, with its own flags. */
  lemma FlowFed(setup: Setup, k: Kernel, p: Bytes, env: Env)
    ensures !Ipv4Frame(p) || FromListed(k, p) ==> Receive(setup, k, p, env).flows == k.flows
    ensures Ipv4Frame(p) && !FromListed(k, p) ==>
      var key := KeyOf(Parse(p));
      && key.src == SourceOf(p) && key.dst == DestinationOf(p) && key.proto == ProtocolOf(p)
      && PortsOf(p, key.sport, key.dport)
      && Receive(setup, k, p, env).flows == TrackFlow(setup, k.flows, key, FlagsOf(p), env)
  {
    DroppedIff(k, p);
    Ipv4Fields(p);
    if Ipv4Frame(p) {
      TransportBytes(p);
    }
  }

  // ----- Events -----

  /** The event says what is in the frame, and whether it was dropped. */
  ghost predicate Describes(e: Event, p: Bytes, dropped: bool, ts: u64)
    requires Ipv4Frame(p)
  {
    && e.ts == ts && e.action == (if dropped then 1 else 0)
    && e.src == SourceOf(p) && e.dst == DestinationOf(p)
    && e.proto == ProtocolOf(p) && e.ttl == TtlOf(p)
    && PortsOf(p, e.sport, e.dport) && e.tcpFlags == FlagsOf(p)
    && e.icmpType == (if HasIcmp(p) then p[TransportAt(p)] else 0)
    && e.icmpCode == (if HasIcmp(p) then p[TransportAt(p) + 1] else 0)
  }

  /** The frame is reported: always if it is dropped or opens a flow, otherwise if events
      are not sampled or the draw is a multiple of the sampling number. */
  ghost predicate Chosen(setup: Setup, k: Kernel, p: Bytes, env: Env) {
    && Ipv4Frame(p)
    && (|| FromListed(k, p) || KeyOf(Parse(p)) !in k.flows || setup.sampleN == 0
        || exists q: nat :: Times(q, setup.sampleN) == env.random)
  }

  function Times(q: nat, n: nat): nat {
    q * n
  }

  /** Division without remainder. */
  lemma MultipleIff(x: nat, n: nat)
    requires n > 0
    ensures x % n == 0 <==> exists q: nat :: Times(q, n) == x
  {
    if x % n == 0 {
      assert Times(x / n, n) == x;
    }
    if q: nat :| Times(q, n) == x {
      QuotientIs(x, n, q);
      assert x / n == q;
    }
  }

  lemma ChosenIff(setup: Setup, k: Kernel, p: Bytes, env: Env)
    ensures XdpRuns.Selected(setup, k, p, env) <==> Chosen(setup, k, p, env)
  {
    Ipv4Fields(p);
    DroppedIff(k, p);
    if setup.sampleN > 0 {
      MultipleIff(env.random, setup.sampleN);
    }
    if setup.sampleN == 1 {
      assert Times(env.random, 1) == env.random;
    }
  }

  /** A chosen frame submits one event that describes it if the ring has room, and nothing
      else submits one. */
  lemma EventOf(setup: Setup, k: Kernel, p: Bytes, env: Env)
    ensures var after := Receive(setup, k, p, env);
      if Chosen(setup, k, p, env) && env.reserveOk
      then |after.events| == |k.events| + 1 && after.events[..|k.events|] == k.events
           && Describes(after.events[|k.events|], p, FromListed(k, p), env.ts)
      else after.events == k.events
  {
    ChosenIff(setup, k, p, env);
    DroppedIff(k, p);
    Ipv4Fields(p);
    if Ipv4Frame(p) {
      TransportBytes(p);
    }
  }

  /** Whatever the draw, a dropped frame and one that opens a flow are reported. */
  lemma AlwaysReported(setup: Setup, k: Kernel, p: Bytes, env: Env)
    requires Ipv4Frame(p) && (FromListed(k, p) || KeyOf(Parse(p)) !in k.flows) && env.reserveOk
    ensures var after := Receive(setup, k, p, env);
      && |after.events| == |k.events| + 1 && after.events[..|k.events|] == k.events
      && Describes(after.events[|k.events|], p, FromListed(k, p), env.ts)
  {
    EventOf(setup, k, p, env);
  }
}
