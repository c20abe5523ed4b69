/** The XDP program (bpf/kwatch.bpf.c): its maps, what one packet does to them, and
    the program itself as a method over the packet's bytes. */
module Xdp {
  import opened Words
  import opened Packet

  const MAX_COUNTERS := 256
  const MAX_BLACKLIST := 1024
  const DROPPED: u32 := 0xFFFF

  // ----- The blacklist: a longest-prefix-match trie, seen through its lookup -----

  datatype Prefix = Prefix(len: nat, data: u32)

  function Pow2(n: nat): (r: nat)
    ensures r > 0
  {
    if n == 0 then 1 else 2 * Pow2(n - 1)
  }

  predicate Covers(p: Prefix, ip: u32) {
    p.len <= 32 && ip / Pow2(32 - p.len) == p.data / Pow2(32 - p.len)
  }

  /** A lookup of `ip` with length 32 finds an entry. */
  predicate Listed(blacklist: set<Prefix>, ip: u32) {
    exists p :: p in blacklist && Covers(p, ip)
  }

  lemma HostPrefixCovers(data: u32, ip: u32)
    ensures Covers(Prefix(32, data), ip) <==> data == ip
  {
    assert Pow2(0) == 1;
  }

  /** A quotient is `k` exactly on the `k`th block of length `d`. */
  lemma QuotientIs(x: nat, d: nat, k: nat)
    requires d > 0
    ensures x / d == k <==> k * d <= x < k * d + d
  {
    var q, r := x / d, x % d;
    assert x == q * d + r && 0 <= r < d;
    if q < k {
      assert (q + 1) * d <= k * d;
    } else if q > k {
      assert (k + 1) * d <= q * d;
    }
  }

  lemma SameBlock(x: nat, y: nat, d: nat)
    requires d > 0
    ensures x / d == y / d <==> y - y % d <= x < y - y % d + d
  {
    var k := y / d;
    assert y - y % d == k * d;
    QuotientIs(x, d, k);
  }

  /** The number of addresses under a prefix of the given length. */
  ghost function Span(len: nat): (r: nat)
    ensures r > 0
    decreases 32 - len
  {
    if len >= 32 then 1 else 2 * Span(len + 1)
  }

  lemma {:induction false} SpanIsPow2(len: nat)
    requires len <= 32
    ensures Span(len) == Pow2(32 - len)
    decreases 32 - len
  {
    if len < 32 {
      SpanIsPow2(len + 1);
    }
  }

  /** An address lies in the range of an entry: from the entry's address without its host
      bits on, as far as its span. */
  ghost predicate InRange(p: Prefix, ip: u32) {
    p.len <= 32 && var first := p.data - p.data % Span(p.len); first <= ip < first + Span(p.len)
  }

  lemma PrefixRange(p: Prefix, ip: u32)
    ensures Covers(p, ip) <==> InRange(p, ip)
  {
    if p.len <= 32 {
      SpanIsPow2(p.len);
      SameBlock(ip, p.data, Span(p.len));
    }
  }

  // ----- Flows, events and the maps -----

  datatype FlowKey = FlowKey(src: u32, dst: u32, sport: u16, dport: u16, proto: u8)
  datatype FlowStats = FlowStats(syn: u32, ack: u32, firstSeen: u64, lastSeen: u64)

  datatype Event = Event(
    ts: u64, src: u32, dst: u32, sport: u16, dport: u16, proto: u8,
    tcpFlags: u8, ttl: u8, action: u8, icmpType: u8, icmpCode: u8)

  datatype Kernel = Kernel(
    counts: map<u32, u64>,
    flows: map<FlowKey, FlowStats>,
    blacklist: set<Prefix>,
    events: seq<Event>,     // submitted to the ring buffer, in order
    ringDrops: u64)

  const BOOT := Kernel(map[], map[], {}, [], 0)

  /** The constants compiled into the program (`kwatch_make_runtime_config`). */
  datatype Setup = Setup(sampleN: u32, windowS: u32) {
    function WindowNs(): u64 {
      windowS * NS_PER_S
    }
  }

  /** What the helpers return while one packet is handled: the clock when the flow
      is updated and when the event is stamped, a random word, and whether the ring
      buffer has room and a new flow can be stored. */
  datatype Env = Env(now: u64, ts: u64, random: u32, reserveOk: bool, insertOk: bool)

  datatype Verdict = Pass | Drop

  // ----- What one packet does -----

  function Increment(counts: map<u32, u64>, key: u32): map<u32, u64> {
    if key in counts then counts[key := Add64(counts[key], 1)]
    else if |counts| < MAX_COUNTERS then counts[key := 1]
    else counts
  }

  predicate ShouldEmit(sampleN: u32, random: u32, isNew: bool) {
    isNew || sampleN <= 1 || random % sampleN == 0
  }

  function MakeEvent(pkt: Parsed, action: u8, ts: u64): Event
    requires pkt.Ipv4?
  {
    Event(ts, pkt.src, pkt.dst, SrcPort(pkt.proto, pkt.l4), DstPort(pkt.proto, pkt.l4), pkt.proto,
          TcpFlags(pkt.proto, pkt.l4), pkt.ttl, action,
          IcmpType(pkt.proto, pkt.l4), IcmpCode(pkt.proto, pkt.l4))
  }

  function Report(setup: Setup, k: Kernel, pkt: Parsed, action: u8, isNew: bool, env: Env): Kernel
    requires pkt.Ipv4?
  {
    if !ShouldEmit(setup.sampleN, env.random, isNew) then k
    else if env.reserveOk then k.(events := k.events + [MakeEvent(pkt, action, env.ts)])
    else k.(ringDrops := Add64(k.ringDrops, 1))
  }

  function KeyOf(pkt: Parsed): FlowKey
    requires pkt.Ipv4?
  {
    FlowKey(pkt.src, pkt.dst, SrcPort(pkt.proto, pkt.l4), DstPort(pkt.proto, pkt.l4), pkt.proto)
  }

  function One(b: bool): nat {
    if b then 1 else 0
  }

  /** A flow entry after one more packet: the window restarts once the entry's first
      packet is too old. */
  function Touch(stats: FlowStats, flags: u8, now: u64, windowNs: u64): FlowStats {
    var base :=
      if windowNs > 0 && now > stats.firstSeen && now - stats.firstSeen > windowNs
      then FlowStats(0, 0, now, now) else stats;
    FlowStats(Add32(base.syn, One(Syn(flags))), Add32(base.ack, One(Ack(flags))), base.firstSeen, now)
  }

  /** The flow table after one packet of the flow `key`. */
  function TrackFlow(setup: Setup, flows: map<FlowKey, FlowStats>, key: FlowKey, flags: u8, env: Env)
    : map<FlowKey, FlowStats>
  {
    if key in flows then flows[key := Touch(flows[key], flags, env.now, setup.WindowNs())]
    else if env.insertOk then flows[key := FlowStats(One(Syn(flags)), One(Ack(flags)), env.now, env.now)]
    else flows
  }

  function FlowsAfter(setup: Setup, k: Kernel, pkt: Parsed, env: Env): map<FlowKey, FlowStats>
    requires pkt.Ipv4?
  {
    TrackFlow(setup, k.flows, KeyOf(pkt), TcpFlags(pkt.proto, pkt.l4), env)
  }

  /** The maps after one packet. */
  function Receive(setup: Setup, k: Kernel, p: Bytes, env: Env): Kernel {
    match Parse(p)
    case Ignored => k
    case CountOnly(key) => k.(counts := Increment(k.counts, key))
    case Ipv4(src, _, proto, _, _) =>
      if Listed(k.blacklist, src) then
        Report(setup, k.(counts := Increment(k.counts, DROPPED)), Parse(p), 1, true, env)
      else
        Report(setup,
               k.(counts := Increment(k.counts, proto), flows := FlowsAfter(setup, k, Parse(p), env)),
               Parse(p), 0, KeyOf(Parse(p)) !in k.flows, env)
  }

  function VerdictOf(k: Kernel, p: Bytes): Verdict {
    if Parse(p).Ipv4? && Listed(k.blacklist, Parse(p).src) then Drop else Pass
  }

  // ----- The program -----

  class Program {
    const setup: Setup
    var pktCounts: map<u32, u64>
    var flowState: map<FlowKey, FlowStats>
    var blacklist: set<Prefix>
    var events: seq<Event>
    var ringbufDrops: u64

    ghost function State(): Kernel
      reads this
    {
      Kernel(pktCounts, flowState, blacklist, events, ringbufDrops)
    }

    constructor (setup: Setup)
      ensures this.setup == setup && State() == BOOT
    {
      this.setup := setup;
      pktCounts, flowState, blacklist, events, ringbufDrops := map[], map[], {}, [], 0;
    }

    /** `inc_count` */
    method IncCount(proto: u32)
      modifies `pktCounts
      ensures pktCounts == Increment(old(pktCounts), proto)
    {
      if proto in pktCounts {
        pktCounts := pktCounts[proto := Add64(pktCounts[proto], 1)];
      } else if |pktCounts| < MAX_COUNTERS {
        pktCounts := pktCounts[proto := 1];
      }
    }

    /** `emit_event`: reads transport fields only after a bounds check. */
    method EmitEvent(p: Bytes, l4: nat, src: u32, dst: u32, proto: u8, ttl: u8,
                     action: u8, isNew: bool, env: Env)
      requires l4 <= |p|
      modifies `events, `ringbufDrops
      ensures State() == Report(setup, old(State()), Ipv4(src, dst, proto, ttl, p[l4..]), action, isNew, env)
    {
      if !ShouldEmit(setup.sampleN, env.random, isNew) {
        return;
      }
      if !env.reserveOk {
        ringbufDrops := Add64(ringbufDrops, 1);
        return;
      }
      var sport: u16, dport: u16, flags: u8, icmpType: u8, icmpCode: u8 := 0, 0, 0, 0, 0;
      if proto == IPPROTO_TCP {
        if l4 + 20 <= |p| {
          sport, dport, flags := Be16(p, l4), Be16(p, l4 + 2), p[l4 + 13];
        }
      } else if proto == IPPROTO_UDP {
        if l4 + 8 <= |p| {
          sport, dport := Be16(p, l4), Be16(p, l4 + 2);
        }
      } else if proto == IPPROTO_ICMP {
        if l4 + 8 <= |p| {
          icmpType, icmpCode := p[l4], p[l4 + 1];
        }
      }
      events := events + [Event(env.ts, src, dst, sport, dport, proto, flags, ttl, action, icmpType, icmpCode)];
    }

    /** The flow table part: insert a new flow, or restart and count an old one. */
    method UpdateFlow(key: FlowKey, flags: u8, env: Env) returns (isNew: bool)
      modifies `flowState
      ensures flowState == TrackFlow(setup, old(flowState), key, flags, env)
      ensures isNew == (key !in old(flowState))
    {
      isNew := false;
      if key !in flowState {
        if env.insertOk {
          flowState := flowState[key := FlowStats(One(Syn(flags)), One(Ack(flags)), env.now, env.now)];
        }
        isNew := true;
      } else {
        var stats := flowState[key];
        if setup.WindowNs() > 0 && env.now > stats.firstSeen && env.now - stats.firstSeen > setup.WindowNs() {
          stats := stats.(firstSeen := env.now, syn := 0, ack := 0);
        }
        stats := stats.(lastSeen := env.now);
        if Syn(flags) {
          stats := stats.(syn := Add32(stats.syn, 1));
        }
        if Ack(flags) {
          stats := stats.(ack := Add32(stats.ack, 1));
        }
        flowState := flowState[key := stats];
      }
    }

    /** The second half of `xdp_kwatch_prog`: an IPv4 packet that is not dropped. */
    method PassIpv4(p: Bytes, l4: nat, src: u32, dst: u32, proto: u8, ttl: u8, env: Env)
      requires l4 <= |p|
      modifies `pktCounts, `flowState, `events, `ringbufDrops
      ensures var pkt := Ipv4(src, dst, proto, ttl, p[l4..]); var k := old(State());
        State() == Report(setup,
                          k.(counts := Increment(k.counts, proto), flows := FlowsAfter(setup, k, pkt, env)),
                          pkt, 0, KeyOf(pkt) !in k.flows, env)
    {
      ghost var pkt := Ipv4(src, dst, proto, ttl, p[l4..]);
      IncCount(proto);
      var sport: u16, dport: u16, flags: u8 := 0, 0, 0;
      if proto == IPPROTO_TCP {
        if l4 + 20 <= |p| {
          sport, dport, flags := Be16(p, l4), Be16(p, l4 + 2), p[l4 + 13];
        }
      } else if proto == IPPROTO_UDP {
        if l4 + 8 <= |p| {
          sport, dport := Be16(p, l4), Be16(p, l4 + 2);
        }
      }
      var key := FlowKey(src, dst, sport, dport, proto);
      assert key == KeyOf(pkt) && flags == TcpFlags(proto, pkt.l4);
      var isNew := UpdateFlow(key, flags, env);
      EmitEvent(p, l4, src, dst, proto, ttl, 0, isNew, env);
    }

    /** Its IPv4 part, from the network header at `l3` on. */
    method RunIpv4(p: Bytes, l3: nat, env: Env) returns (verdict: Verdict)
      requires l3 <= |p| && Parse(p) == ParseIpv4(p[l3..])
      modifies this
      ensures State() == Receive(setup, old(State()), p, env)
      ensures verdict == VerdictOf(old(State()), p)
    {
      if l3 + 20 > |p| {
        return Pass;
      }
      if p[l3] / 0x10 != 4 {
        return Pass;
      }
      var ihl := p[l3] % 0x10;
      if ihl < 5 {
        return Pass;
      }
      var l4: nat := l3 + (ihl as int) * 4;
      if l4 > |p| {
        return Pass;
      }
      var proto, ttl, src, dst := p[l3 + 9], p[l3 + 8], Be32(p, l3 + 12), Be32(p, l3 + 16);
      assert p[l3..][ihl as int * 4..] == p[l4..];
      assert Parse(p) == Ipv4(src, dst, proto, ttl, p[l4..]);
      if Listed(blacklist, src) {
        IncCount(DROPPED);
        EmitEvent(p, l4, src, dst, proto, ttl, 1, true, env);
        return Drop;
      }
      PassIpv4(p, l4, src, dst, proto, ttl, env);
      return Pass;
    }

    /** `xdp_kwatch_prog`: no read leaves the packet, whatever its bytes. */
    method Run(p: Bytes, env: Env) returns (verdict: Verdict)
      modifies this
      ensures State() == Receive(setup, old(State()), p, env)
      ensures verdict == VerdictOf(old(State()), p)
    {
      if 14 > |p| {
        return Pass;
      }
      var ethType := Be16(p, 12);
      var l3 := 14;
      if ethType == ETH_P_8021Q || ethType == ETH_P_8021AD {
        if l3 + 4 > |p| {
          return Pass;
        }
        ethType := Be16(p, l3 + 2);
        l3 := l3 + 4;
      }
      assert Parse(p) == ParsePayload(ethType, p[l3..]);
      if ethType != ETH_P_IP {
        if ethType == ETH_P_IPV6 {
          IncCount(0x86DD);
        } else if ethType == ETH_P_ARP {
          IncCount(0x0806);
        }
        return Pass;
      }
      verdict := RunIpv4(p, l3, env);
    }
  }

  // ----- Encapsulation transparency -----

  /** Tagging an untagged frame changes neither the verdict nor anything the program
      writes: counters, flows, events. */
  lemma VlanTagChangesNothing(setup: Setup, k: Kernel, p: Bytes, tpid: u16, tci: Bytes, env: Env)
    requires |p| >= 14 && |tci| == 2 && (tpid == 0x8100 || tpid == 0x88A8)
    requires !IsVlan(Be16(p, 12))
    ensures Receive(setup, k, PushTag(p, tpid, tci), env) == Receive(setup, k, p, env)
    ensures VerdictOf(k, PushTag(p, tpid, tci)) == VerdictOf(k, p)
  {
    VlanTagIsTransparent(p, tpid, tci);
  }

  /** Nor does inserting option words into a valid IPv4 header. */
  lemma OptionsChangeNothing(setup: Setup, k: Kernel, p: Bytes, keep: nat, options: Bytes, env: Env)
    requires Parse(p).Ipv4?
    requires 5 <= keep <= p[L3(p)] % 0x10
    requires |options| % 4 == 0 && p[L3(p)] % 0x10 + |options| / 4 <= 15
    ensures Receive(setup, k, InsertOptions(p, keep, options), env) == Receive(setup, k, p, env)
    ensures VerdictOf(k, InsertOptions(p, keep, options)) == VerdictOf(k, p)
  {
    OptionsAreTransparent(p, keep, options);
  }
}
