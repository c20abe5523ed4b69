/** The counter table can run full: a run that leaves a packet uncounted. */
module XdpOverflow {
  import opened Words
  import opened Packet
  import opened Xdp
  import opened XdpRuns

  const ARP_FRAME: Bytes := [0, 0, 0, 0, 0, 0, 0, 0, 0, 0, 0, 0, 0x08, 0x06]

  /** A bare IPv4 header of the given protocol. */
  function ProtoHeader(proto: u8): Bytes {
    [0x45, 0, 0, 20, 0, 0, 0, 0, 64, proto, 0, 0, 10, 0, 0, 1, 10, 0, 0, 2]
  }

  lemma ProtoFrameParses(proto: u8)
    ensures Parse(IPV4_FRAME_HEADER + ProtoHeader(proto)).Ipv4?
    ensures Parse(IPV4_FRAME_HEADER + ProtoHeader(proto)).proto == proto
  {
    var p := IPV4_FRAME_HEADER + ProtoHeader(proto);
    assert p[14..] == ProtoHeader(proto);
    assert Be16(p, 12) == Be16(IPV4_FRAME_HEADER, 12) == ETH_P_IP;
  }

  /** One packet of each protocol below `n`. */
  ghost function Sweep(n: nat): seq<Action>
    requires n <= 0x100
  {
    seq(n, (i: nat) requires i < 0x100 => Rx(IPV4_FRAME_HEADER + ProtoHeader(i), Env(1, 1, 0, true, true)))
  }

  /** The keys below `n`. */
  ghost function Below(n: nat): set<u32>
    requires n <= 0x100
  {
    if n == 0 then {} else Below(n - 1) + {n - 1}
  }

  lemma {:induction false} BelowHolds(n: nat)
    requires n <= 0x100
    ensures |Below(n)| == n
    ensures forall key :: key in Below(n) ==> key < n
  {
    if n > 0 {
      BelowHolds(n - 1);
    }
  }

  lemma {:induction false} SweepCounts(setup: Setup, n: nat)
    requires n <= 0x100
    ensures Exec(setup, Sweep(n)).blacklist == {}
    ensures Distinct(Counted(setup, Sweep(n))) == Below(n)
  {
    if n > 0 {
      SweepCounts(setup, n - 1);
      assert Sweep(n)[..n - 1] == Sweep(n - 1);
      ProtoCounts(Exec(setup, Sweep(n - 1)), n - 1);
      SweepStep(setup, Exec(setup, Sweep(n - 1)), n - 1);
      assert Counted(setup, Sweep(n)) == Counted(setup, Sweep(n - 1)) + multiset{n - 1};
    }
  }

  lemma ProtoCounts(k: Kernel, proto: u8)
    requires k.blacklist == {}
    ensures CountedAs(k, IPV4_FRAME_HEADER + ProtoHeader(proto)) == multiset{proto as u32}
  {
    ProtoFrameParses(proto);
  }

  lemma SweepStep(setup: Setup, k: Kernel, proto: u8)
    ensures Receive(setup, k, IPV4_FRAME_HEADER + ProtoHeader(proto), Env(1, 1, 0, true, true)).blacklist == k.blacklist
  {
  }

  /** Then the table is full. */
  lemma SweepFillsTable(setup: Setup)
    ensures var counts := Exec(setup, Sweep(0x100)).counts;
      |counts| == MAX_COUNTERS && 0x0806 !in counts
  {
    var acts := Sweep(0x100);
    SweepCounts(setup, 0x100);
    BelowHolds(0x100);
    NothingMissingIff(setup, acts);
    SlotsExact(setup, acts);
    SlotsOf(Exec(setup, acts).counts, Counted(setup, acts));
  }

  lemma SlotsOf(counts: map<u32, u64>, counted: multiset<u32>)
    requires SlotsMatch(counts, counted) && forall key :: key in counted ==> key in counts
    ensures counts.Keys == Distinct(counted) && |counts| == |Distinct(counted)|
  {
    assert counts.Keys == Distinct(counted);
    assert |counts| == |counts.Keys|;
  }

  lemma ArpNotCounted(setup: Setup, k: Kernel, env: Env)
    requires |k.counts| == MAX_COUNTERS && 0x0806 !in k.counts
    ensures CountedAs(k, ARP_FRAME) == multiset{0x0806}
    ensures 0x0806 !in Receive(setup, k, ARP_FRAME, env).counts
  {
    assert Parse(ARP_FRAME) == CountOnly(0x0806);
  }

  /** After one packet of every protocol, an ARP packet occurs but is not counted. */
  lemma TableCanOverflow(setup: Setup, env: Env)
    ensures var acts := Sweep(0x100) + [Rx(ARP_FRAME, env)];
      0x0806 in Counted(setup, acts) && 0x0806 !in Exec(setup, acts).counts
  {
    var acts := Sweep(0x100) + [Rx(ARP_FRAME, env)];
    assert acts[..|acts| - 1] == Sweep(0x100);
    SweepFillsTable(setup);
    ArpNotCounted(setup, Exec(setup, Sweep(0x100)), env);
  }
}
