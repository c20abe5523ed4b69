/** Runs that show the conditions of the loop's theorems to be exact: a block can come
    back without a new packet if its time-to-live is within the window or the blacklist
    refused it, and a full blacklist does refuse. */
module LoopWitness {
  import opened Words
  import opened Packet
  import opened Xdp
  import opened Tracker
  import TrackerRuns
  import opened TrackerProgram
  import opened ControlLoop
  import opened LoopTheorems
  import Detection

  const SRC: u32 := 0x0a00_0001
  const DST: u32 := 0x0a00_0002

  const IPV4: Bytes := [0x45, 0, 0, 40, 0, 0, 0, 0, 64, 6, 0, 0, 10, 0, 0, 1, 10, 0, 0, 2]
  const TCP: Bytes := [0, 1, 0, 80, 0, 0, 0, 0, 0, 0, 0, 0, 0x50, 0x02, 0, 0, 0, 0, 0, 0]

  /** A TCP SYN from 10.0.0.1 port 1 to 10.0.0.2 port 80, in a minimal frame. */
  const SYN_FRAME: Bytes := IPV4_FRAME_HEADER + (IPV4 + TCP)

  const KEY := FlowKey(SRC, DST, 1, 80, 6)

  lemma SynFrameParses()
    ensures var pkt := Parse(SYN_FRAME);
      pkt.Ipv4? && pkt.src == SRC && KeyOf(pkt) == KEY && TcpFlags(pkt.proto, pkt.l4) == 0x02
  {
    assert SYN_FRAME[14..] == IPV4 + TCP;
    assert Be16(SYN_FRAME, 12) == Be16(IPV4_FRAME_HEADER, 12) == ETH_P_IP;
    HeaderParses(IPV4, TCP);
    SynFields();
  }

  /** A 20-byte header without options, and what follows it. */
  lemma HeaderParses(header: Bytes, rest: Bytes)
    requires |header| == 20 && header[0] == 0x45
    ensures ParseIpv4(header + rest) == Ipv4(Be32(header, 12), Be32(header, 16), header[9], header[8], rest)
  {
    var d := header + rest;
    assert d[20..] == rest;
    assert forall i :: 0 <= i < 20 ==> d[i] == header[i];
    assert d[0] % 0x10 == 5 && d[0] / 0x10 == 4;
  }

  lemma SynFields()
    ensures Be32(IPV4, 12) == SRC && Be32(IPV4, 16) == DST
    ensures Be16(TCP, 0) == 1 && Be16(TCP, 2) == 80 && TCP[13] == 0x02
  {
    assert Be16(IPV4, 12) == 0x0a00 && Be16(IPV4, 14) == 1;
    assert Be16(IPV4, 16) == 0x0a00 && Be16(IPV4, 18) == 2;
  }

  // ----- Bursts of SYNs -----

  function EnvAt(at: u64): Env {
    Env(at, at, 0, true, true)
  }

  ghost function BurstFlow(n: nat, at: u64): FlowStats
    requires n < TWO32
  {
    FlowStats(n, 0, at, at)
  }

  /** From the world `was`, `n` SYNs at time `at` have passed. */
  ghost predicate AfterBurst(was: World, w: World, n: nat, at: u64)
    requires 1 <= n < TWO32
  {
    && w.kernel.flows == map[KEY := BurstFlow(n, at)]
    && w.kernel.blacklist == was.kernel.blacklist && w.tracker == was.tracker && w.clock == at
  }

  /** The frame passes a blacklist without its source and reaches the flow table. */
  lemma SynReachesFlows(par: Params, w: World, at: u64)
    requires !Listed(w.kernel.blacklist, SRC)
    ensures var after := OnRx(par, w, SYN_FRAME, EnvAt(at));
      && after.kernel.flows == TrackFlow(par.KernelSetup(), w.kernel.flows, KEY, 0x02, EnvAt(at))
      && after.kernel.blacklist == w.kernel.blacklist && after.tracker == w.tracker && after.clock == at
  {
    SynFrameParses();
  }

  lemma SynIsRecorded(par: Params, w: World, at: u64)
    requires !Listed(w.kernel.blacklist, SRC)
    ensures OnRx(par, w, SYN_FRAME, EnvAt(at)).passed == w.passed + [Passed(KEY, true, false, at)]
  {
    SynFrameParses();
    assert Syn(0x02) && !Ack(0x02);
  }

  lemma BurstBegins(par: Params, w: World, at: u64)
    requires !Listed(w.kernel.blacklist, SRC) && w.kernel.flows == map[]
    ensures AfterBurst(w, OnRx(par, w, SYN_FRAME, EnvAt(at)), 1, at)
  {
    SynReachesFlows(par, w, at);
    FirstFlow(par.KernelSetup(), at);
  }

  lemma FirstFlow(setup: Setup, at: u64)
    ensures TrackFlow(setup, map[], KEY, 0x02, EnvAt(at)) == map[KEY := BurstFlow(1, at)]
  {
    assert Syn(0x02) && !Ack(0x02);
  }

  lemma BurstContinues(par: Params, was: World, w: World, n: nat, at: u64)
    requires 1 <= n < TWO32 - 1 && AfterBurst(was, w, n, at) && !Listed(was.kernel.blacklist, SRC)
    ensures AfterBurst(was, OnRx(par, w, SYN_FRAME, EnvAt(at)), n + 1, at)
  {
    SynReachesFlows(par, w, at);
    BurstFlowGrows(par.KernelSetup(), n, at);
    assert w.kernel.flows[KEY := BurstFlow(n + 1, at)] == map[KEY := BurstFlow(n + 1, at)];
  }

  lemma BurstFlowGrows(setup: Setup, n: nat, at: u64)
    requires 1 <= n < TWO32 - 1
    ensures Touch(BurstFlow(n, at), 0x02, at, setup.WindowNs()) == BurstFlow(n + 1, at)
  {
    assert Syn(0x02) && !Ack(0x02);
  }

  lemma OneMore(par: Params, acts: seq<Action>, a: Action)
    ensures var w := Exec(par, acts);
      Exec(par, acts + [a]) == if Enabled(par, w, a) then Apply(par, w, a) else w
  {
    var more := acts + [a];
    assert more[..|more| - 1] == acts;
  }

  lemma SynArrives(par: Params, acts: seq<Action>, at: u64) returns (more: seq<Action>)
    requires ClockReads(Exec(par, acts), at)
    ensures Exec(par, more) == OnRx(par, Exec(par, acts), SYN_FRAME, EnvAt(at))
  {
    more := acts + [Rx(SYN_FRAME, EnvAt(at))];
    OneMore(par, acts, Rx(SYN_FRAME, EnvAt(at)));
  }

  lemma FirstSyn(par: Params, acts: seq<Action>, at: u64) returns (more: seq<Action>)
    requires var w := Exec(par, acts);
      w.kernel.flows == map[] && !Listed(w.kernel.blacklist, SRC) && ClockReads(w, at)
    ensures AfterBurst(Exec(par, acts), Exec(par, more), 1, at)
    ensures Exec(par, more).passed == Exec(par, acts).passed + [Passed(KEY, true, false, at)]
  {
    more := SynArrives(par, acts, at);
    BurstBegins(par, Exec(par, acts), at);
    SynIsRecorded(par, Exec(par, acts), at);
  }

  lemma NextSyn(par: Params, was: World, acts: seq<Action>, n: nat, at: u64) returns (more: seq<Action>)
    requires 1 <= n < TWO32 - 1 && AfterBurst(was, Exec(par, acts), n, at)
    requires !Listed(was.kernel.blacklist, SRC) && at < TWO63
    ensures AfterBurst(was, Exec(par, more), n + 1, at)
  {
    more := SynArrives(par, acts, at);
    BurstContinues(par, was, Exec(par, acts), n, at);
  }

  /** A run that ends in a burst. */
  lemma {:induction false} Burst(par: Params, acts: seq<Action>, n: nat, at: u64) returns (more: seq<Action>)
    requires 1 <= n < TWO32
    requires var w := Exec(par, acts);
      w.kernel.flows == map[] && !Listed(w.kernel.blacklist, SRC) && ClockReads(w, at)
    ensures AfterBurst(Exec(par, acts), Exec(par, more), n, at)
    decreases n
  {
    if n == 1 {
      more := FirstSyn(par, acts, at);
    } else {
      var before := Burst(par, acts, n - 1, at);
      more := NextSyn(par, Exec(par, acts), before, n - 1, at);
    }
  }

  // ----- Ticks that see only this flow -----

  ghost function View(n: nat, at: u64): Snapshot
    requires n < TWO32
  {
    Taken([Entry(KEY, BurstFlow(n, at))])
  }

  /** The flow table holds a burst of at least the threshold, and the tracker knows of
      no other source. */
  ghost predicate Lone(par: Params, w: World, n: nat, at: u64) {
    && 1 <= n < TWO32 && par.cfg.threshold <= n && par.cfg.autoBlock && at >= 1
    && w.kernel.flows == map[KEY := BurstFlow(n, at)]
    && w.tracker.stats.Keys <= {SRC}
  }

  /** The writes of a tick that blocks the source unless it is blocked. */
  ghost function LoneWrites(w: World): Writes {
    Writes(if Blocked(w.tracker, SRC) then [] else [SRC], {})
  }

  lemma LoneSnapshot(par: Params, w: World, n: nat, at: u64, now: u64)
    requires Lone(par, w, n, at) && at <= now <= at + par.cfg.WindowNs()
    ensures var t1 := AfterSnapshot(par.cfg, w.tracker, View(n, at), now);
      var s, s1 := Get(w.tracker.stats, SRC), Get(t1.stats, SRC);
      && t1.stats.Keys == {SRC}
      && s1.flagged && s1.blocked == s.blocked && s1.blockStart == s.blockStart
  {
    var entries, window := View(n, at).entries, par.cfg.WindowNs();
    assert entries[..|entries| - 1] == [];
    assert Entry(KEY, BurstFlow(n, at)) in entries && Eligible(Entry(KEY, BurstFlow(n, at)), now, window);
    assert Sources(entries, now, window) == {SRC};
    assert SynTotal(entries, SRC, now, window) == n;
    assert AckTotal(entries, SRC, now, window) == 0;
    TrackerRuns.SnapshotAt(par.cfg, w.tracker, entries, now, SRC);
  }

  /** A tick within the window flags the source and blocks it unless it is blocked. */
  lemma LoneTick(par: Params, w: World, n: nat, at: u64, now: u64)
    requires Lone(par, w, n, at) && at <= now <= at + par.cfg.WindowNs() && ClockReads(w, now)
    ensures Enabled(par, w, Tick(View(n, at), now, LoneWrites(w)))
    ensures TickBlocks(par.cfg, w.tracker, View(n, at), now) == if Blocked(w.tracker, SRC) then {} else {SRC}
    ensures Lone(par, OnTickAction(par, w, View(n, at), now, LoneWrites(w)), n, at)
  {
    LoneSnapshot(par, w, n, at, now);
    assert Reads(View(n, at).entries, w.kernel.flows);
    var blocks := TickBlocks(par.cfg, w.tracker, View(n, at), now);
    assert blocks == if Blocked(w.tracker, SRC) then {} else {SRC};
    assert Lists(LoneWrites(w).order, blocks);
  }

  /** A tick at the time of the burst leaves the source blocked from then on, unless the
      block expires at once; if the blacklist has a slot, it holds the block. */
  lemma BlockingTick(par: Params, w: World, n: nat, at: u64)
    requires Inv(par, w) && Lone(par, w, n, at) && ClockReads(w, at) && !Blocked(w.tracker, SRC)
    ensures var after := OnTickAction(par, w, View(n, at), at, LoneWrites(w));
      && Lone(par, after, n, at) && after.clock == at
      && (Blocked(after.tracker, SRC) <==> par.cfg.ttlS != 0)
      && (Blocked(after.tracker, SRC) ==> Get(after.tracker.stats, SRC).blockStart == at)
      && (|w.kernel.blacklist| < MAX_BLACKLIST ==> BlockHolds(after, SRC))
      && (|w.kernel.blacklist| == MAX_BLACKLIST ==> after.kernel.blacklist <= w.kernel.blacklist)
  {
    LoneTick(par, w, n, at, at);
    LoneSnapshot(par, w, n, at, at);
    TickOnSource(par, w, View(n, at), at, LoneWrites(w), SRC);
    var s1 := Get(AfterSnapshot(par.cfg, w.tracker, View(n, at), at).stats, SRC);
    DeadlineDoesNotWrap(par.cfg, at, at, Block(par.cfg, s1, at));
    OneWrite(w.kernel.blacklist, SRC);
  }

  lemma OneWrite(blacklist: set<Prefix>, ip: u32)
    ensures Written(blacklist, Writes([ip], {})) == AddHost(blacklist, ip, {})
  {
    assert [ip][..0] == [];
    assert AddHosts(blacklist, [], {}) == blacklist;
  }

  /** A tick at or after the deadline ends the block. */
  lemma UnblockingTick(par: Params, w: World, n: nat, at: u64, now: u64)
    requires Inv(par, w) && Lone(par, w, n, at) && at <= now <= at + par.cfg.WindowNs() && ClockReads(w, now)
    requires if Blocked(w.tracker, SRC) then Get(w.tracker.stats, SRC).blockStart + par.cfg.TtlNs() <= now
             else par.cfg.ttlS == 0
    ensures SRC in TickUnblocks(par.cfg, w.tracker, View(n, at), now, true)
    ensures var after := OnTickAction(par, w, View(n, at), now, LoneWrites(w));
      Lone(par, after, n, at) && after.clock == now && !Blocked(after.tracker, SRC)
  {
    LoneTick(par, w, n, at, now);
    LoneSnapshot(par, w, n, at, now);
    TickOnSource(par, w, View(n, at), now, LoneWrites(w), SRC);
    var s2 := Block(par.cfg, Get(AfterSnapshot(par.cfg, w.tracker, View(n, at), now).stats, SRC), now);
    DeadlineDoesNotWrap(par.cfg, s2.blockStart, now, s2);
  }

  /** The run continues with such a tick. */
  lemma NextTick(par: Params, acts: seq<Action>, n: nat, at: u64, now: u64) returns (tick: Action)
    requires var w := Exec(par, acts);
      Lone(par, w, n, at) && at <= now <= at + par.cfg.WindowNs() && ClockReads(w, now)
    ensures tick == Tick(View(n, at), now, LoneWrites(Exec(par, acts))) && Enabled(par, Exec(par, acts), tick)
    ensures Exec(par, acts + [tick]) == Apply(par, Exec(par, acts), tick)
  {
    LoneTick(par, Exec(par, acts), n, at, now);
    tick := Tick(View(n, at), now, LoneWrites(Exec(par, acts)));
    OneMore(par, acts, tick);
  }

  /** The source is blocked since `start` unless blocks expire at once. */
  ghost predicate BlockedSince(par: Params, w: World, start: u64) {
    if par.cfg.ttlS == 0 then !Blocked(w.tracker, SRC)
    else Blocked(w.tracker, SRC) && Get(w.tracker.stats, SRC).blockStart == start
  }

  lemma RunBlocks(par: Params, acts: seq<Action>, n: nat, at: u64) returns (more: seq<Action>)
    requires var w := Exec(par, acts); Lone(par, w, n, at) && ClockReads(w, at) && !Blocked(w.tracker, SRC)
    ensures var w, after := Exec(par, acts), Exec(par, more);
      && Lone(par, after, n, at) && after.clock == at && BlockedSince(par, after, at)
      && (|w.kernel.blacklist| < MAX_BLACKLIST ==> BlockHolds(after, SRC))
      && (|w.kernel.blacklist| == MAX_BLACKLIST ==> after.kernel.blacklist <= w.kernel.blacklist)
  {
    AlwaysInv(par, acts);
    BlockingTick(par, Exec(par, acts), n, at);
    var tick := NextTick(par, acts, n, at, at);
    more := acts + [tick];
  }

  lemma RunUnblocks(par: Params, acts: seq<Action>, n: nat, at: u64, now: u64, start: u64) returns (tick: Action)
    requires var w := Exec(par, acts);
      && Lone(par, w, n, at) && at <= now <= at + par.cfg.WindowNs() && ClockReads(w, now)
      && BlockedSince(par, w, start) && start + par.cfg.TtlNs() <= now
    ensures tick.Tick? && Enabled(par, Exec(par, acts), tick)
    ensures SRC in TickUnblocks(par.cfg, Exec(par, acts).tracker, tick.snapshot, tick.now, true)
    ensures var after := Exec(par, acts + [tick]);
      Lone(par, after, n, at) && after.clock == now && !Blocked(after.tracker, SRC)
  {
    AlwaysInv(par, acts);
    UnblockingTick(par, Exec(par, acts), n, at, now);
    tick := NextTick(par, acts, n, at, now);
  }

  lemma RunBlocksAgain(par: Params, acts: seq<Action>, n: nat, at: u64, now: u64) returns (tick: Action)
    requires var w := Exec(par, acts);
      && Lone(par, w, n, at) && at <= now <= at + par.cfg.WindowNs() && ClockReads(w, now)
      && !Blocked(w.tracker, SRC)
    ensures tick.Tick? && Enabled(par, Exec(par, acts), tick)
    ensures SRC in TickBlocks(par.cfg, Exec(par, acts).tracker, tick.snapshot, tick.now)
  {
    LoneTick(par, Exec(par, acts), n, at, now);
    tick := Tick(View(n, at), now, LoneWrites(Exec(par, acts)));
  }

  // ----- Relapses -----

  /** The run unblocks `ip` at position `j` and blocks it again at `m`, although nothing
      from it was let through in between. */
  ghost predicate Reblocks(par: Params, acts: seq<Action>, j: nat, m: nat, ip: u32) {
    && UnblockedAt(par, acts, j, ip)
    && j < m < |acts| && NoFreshTraffic(par, acts, j, m, ip)
    && acts[m].Tick? && Enabled(par, Exec(par, acts[..m]), acts[m])
    && ip in TickBlocks(par.cfg, Exec(par, acts[..m]).tracker, acts[m].snapshot, acts[m].now)
  }

  lemma TwoTicks(par: Params, acts: seq<Action>, first: Action, second: Action, ip: u32)
    requires first.Tick? && Enabled(par, Exec(par, acts), first)
    requires ip in TickUnblocks(par.cfg, Exec(par, acts).tracker, first.snapshot, first.now, true)
    requires second.Tick? && Enabled(par, Exec(par, acts + [first]), second)
    requires ip in TickBlocks(par.cfg, Exec(par, acts + [first]).tracker, second.snapshot, second.now)
    ensures Reblocks(par, acts + [first] + [second], |acts|, |acts| + 1, ip)
  {
    var more := acts + [first] + [second];
    assert more[..|acts|] == acts && more[..|acts| + 1] == acts + [first];
  }

  /** When the burst is still within the window at the deadline, one tick unblocks the
      source and the next blocks it again. */
  lemma Relapse(par: Params, acts: seq<Action>, n: nat, at: u64, now: u64, start: u64) returns (more: seq<Action>)
    requires var w := Exec(par, acts);
      && Lone(par, w, n, at) && at <= now <= at + par.cfg.WindowNs() && ClockReads(w, now)
      && BlockedSince(par, w, start) && start + par.cfg.TtlNs() <= now
    ensures |more| > |acts| && more[..|acts|] == acts
    ensures Reblocks(par, more, |acts|, |acts| + 1, SRC)
  {
    var first := RunUnblocks(par, acts, n, at, now, start);
    var second := RunBlocksAgain(par, acts + [first], n, at, now);
    TwoTicks(par, acts, first, second, SRC);
    more := acts + [first] + [second];
  }

  /** A run in which a time-to-live within the window lets a block that the blacklist
      held come back. */
  lemma ShortBlockRelapses(par: Params) returns (acts: seq<Action>, j: nat, m: nat)
    requires par.cfg.autoBlock && par.cfg.ttlS <= par.cfg.windowS
    ensures Reblocks(par, acts, j, m, SRC) && BlockHolds(Exec(par, acts[..j]), SRC)
  {
    var n: nat := if par.cfg.threshold == 0 then 1 else par.cfg.threshold;
    assert Exec(par, []) == INITIAL;
    var burst := Burst(par, [], n, 1);
    var blocked := RunBlocks(par, burst, n, 1);
    acts := Relapse(par, blocked, n, 1, 1 + par.cfg.TtlNs(), 1);
    j, m := |blocked|, |blocked| + 1;
  }

  // ----- A completed handshake -----

  const TCP_ACK: Bytes := [0, 1, 0, 80, 0, 0, 0, 0, 0, 0, 0, 0, 0x50, 0x10, 0, 0, 0, 0, 0, 0]

  /** The ACK that follows the SYN in the same flow. */
  const ACK_FRAME: Bytes := IPV4_FRAME_HEADER + (IPV4 + TCP_ACK)

  lemma AckFrameParses()
    ensures var pkt := Parse(ACK_FRAME);
      pkt.Ipv4? && pkt.src == SRC && KeyOf(pkt) == KEY && TcpFlags(pkt.proto, pkt.l4) == 0x10
  {
    assert ACK_FRAME[14..] == IPV4 + TCP_ACK;
    assert Be16(ACK_FRAME, 12) == Be16(IPV4_FRAME_HEADER, 12) == ETH_P_IP;
    HeaderParses(IPV4, TCP_ACK);
    SynFields();
    assert Be16(TCP_ACK, 0) == 1 && Be16(TCP_ACK, 2) == 80 && TCP_ACK[13] == 0x10;
  }

  lemma AckCounts(par: Params, w: World, at: u64)
    requires !Listed(w.kernel.blacklist, SRC) && w.kernel.flows == map[KEY := BurstFlow(1, at)]
    ensures var after := OnRx(par, w, ACK_FRAME, EnvAt(at));
      after.kernel.flows == map[KEY := FlowStats(1, 1, at, at)] && after.tracker == w.tracker
  {
    AckReachesFlows(par, w, at);
    AckTouches(par.KernelSetup(), at);
    assert w.kernel.flows[KEY := FlowStats(1, 1, at, at)] == map[KEY := FlowStats(1, 1, at, at)];
  }

  lemma AckReachesFlows(par: Params, w: World, at: u64)
    requires !Listed(w.kernel.blacklist, SRC)
    ensures var after := OnRx(par, w, ACK_FRAME, EnvAt(at));
      && after.kernel.flows == TrackFlow(par.KernelSetup(), w.kernel.flows, KEY, 0x10, EnvAt(at))
      && after.tracker == w.tracker
  {
    AckFrameParses();
  }

  lemma AckTouches(setup: Setup, at: u64)
    ensures Touch(BurstFlow(1, at), 0x10, at, setup.WindowNs()) == FlowStats(1, 1, at, at)
  {
    assert !Syn(0x10) && Ack(0x10);
  }

  /** A SYN and an ACK of one flow leave one of each in its entry. */
  lemma Handshake(par: Params) returns (acts: seq<Action>)
    ensures Exec(par, acts).kernel.flows == map[KEY := FlowStats(1, 1, 1, 1)]
    ensures Exec(par, acts).tracker == START
  {
    assert Exec(par, []) == INITIAL;
    var syn := FirstSyn(par, [], 1);
    acts := syn + [Rx(ACK_FRAME, EnvAt(1))];
    OneMore(par, syn, Rx(ACK_FRAME, EnvAt(1)));
    AckCounts(par, Exec(par, syn), 1);
  }

  lemma {:induction false} BalancedTotals(entries: seq<Entry>, ip: u32, now: u64, window: u64)
    requires forall i :: 0 <= i < |entries| ==> entries[i].stats.syn == entries[i].stats.ack
    ensures SynTotal(entries, ip, now, window) == AckTotal(entries, ip, now, window)
  {
    if entries != [] {
      BalancedTotals(entries[..|entries| - 1], ip, now, window);
    }
  }

  /** A source that completes its handshake is not flagged, whatever the threshold above
      zero, the time and the part of the table that is read. */
  lemma HandshakeIsNotFlagged(par: Params, entries: seq<Entry>, now: u64) returns (acts: seq<Action>)
    requires par.cfg.threshold >= 1
    ensures Samples(entries, Exec(par, acts).kernel.flows) ==>
      !Flagged(OnSnapshot(par.cfg, Exec(par, acts).tracker, entries, now), SRC)
    ensures Exec(par, acts).kernel.flows == map[KEY := FlowStats(1, 1, 1, 1)]
  {
    acts := Handshake(par);
    if Samples(entries, Exec(par, acts).kernel.flows) {
      BalancedTotals(entries, SRC, now, par.cfg.WindowNs());
      Detection.NewFlagByTotals(par.cfg, START, entries, now, SRC);
    }
  }

  // ----- An entry made twice -----

  /** A run in which an entry is evicted and made again at the same instant: it then counts
      one SYN, although two were let through since its first packet. */
  lemma RecreatedEntryUndercounts(par: Params) returns (acts: seq<Action>)
    ensures !Detection.Exact(Exec(par, acts), KEY)
  {
    assert Exec(par, []) == INITIAL;
    var once := FirstSyn(par, [], 1);
    OneMore(par, once, LruEvict({KEY}));
    assert Exec(par, once).kernel.flows - {KEY} == map[];
    acts := FirstSyn(par, once + [LruEvict({KEY})], 1);
    TwoForOne(Exec(par, acts), Passed(KEY, true, false, 1));
  }

  lemma TwoForOne(w: World, syn: Passed)
    requires syn == Passed(KEY, true, false, 1) && w.passed == [] + [syn] + [syn]
    requires w.kernel.flows == map[KEY := BurstFlow(1, 1)]
    ensures !Detection.Exact(w, KEY)
  {
    MarksOneMore([], syn, KEY, 1, SynMark);
    MarksOneMore([] + [syn], syn, KEY, 1, SynMark);
    assert Detection.Figure(w.kernel.flows[KEY], SynMark) == 1;
  }

  // ----- A full blacklist -----

  /** `n` entries of length 31, none of which covers the source. */
  lemma {:induction false} OtherPrefixes(n: nat) returns (fill: set<Prefix>)
    requires n <= MAX_BLACKLIST
    ensures |fill| == n && !Listed(fill, SRC)
    ensures forall p :: p in fill ==> p.len == 31 && p.data < 2 * n
  {
    fill := {};
    if n > 0 {
      var fewer := OtherPrefixes(n - 1);
      var p := Prefix(31, 2 * (n - 1));
      assert !Covers(p, SRC) by {
        assert Pow2(1) == 2 * Pow2(0) == 2;
      }
      fill := fewer + {p};
      assert p !in fewer;
    }
  }

  /** A run to a full blacklist, with a burst that the next tick answers with a block. */
  lemma FullBlacklist(par: Params, n: nat) returns (acts: seq<Action>)
    requires 1 <= n < TWO32 && par.cfg.threshold <= n && par.cfg.autoBlock
    ensures var w := Exec(par, acts);
      && Lone(par, w, n, 1) && w.tracker == START && w.clock == 1
      && |w.kernel.blacklist| == MAX_BLACKLIST && !Listed(w.kernel.blacklist, SRC)
      && Agrees(w)
  {
    assert Exec(par, []) == INITIAL;
    var burst := Burst(par, [], n, 1);
    var w := Exec(par, burst);
    var fill := OtherPrefixes(MAX_BLACKLIST);
    assert Reshaped(w.kernel.blacklist, fill) == fill;
    acts := burst + [Operator(fill)];
    OneMore(par, burst, Operator(fill));
  }

  /** With auto-blocking and a time-to-live, a run reaches a world in which blacklist and
      tracker agree and a tick for which there is no room, and the tick ends the
      agreement. */
  lemma AgreementCanEnd(par: Params) returns (acts: seq<Action>, tick: Action)
    requires par.cfg.autoBlock && par.cfg.ttlS != 0
    ensures var w := Exec(par, acts);
      && Agrees(w) && tick.Tick? && Enabled(par, w, tick)
      && !Room(par, w, tick.snapshot, tick.now, tick.writes)
      && !Agrees(Exec(par, acts + [tick]))
  {
    var n: nat := if par.cfg.threshold == 0 then 1 else par.cfg.threshold;
    acts := FullBlacklist(par, n);
    tick := NextTick(par, acts, n, 1, 1);
    LoneTick(par, Exec(par, acts), n, 1, 1);
    AlwaysInv(par, acts);
    TickKeepsAgreementIff(par, Exec(par, acts), tick.snapshot, tick.now, tick.writes);
  }

  /** Blacklist and tracker agree after every run if and only if blocks are never issued
      or expire at once. */
  lemma AlwaysAgreesIff(par: Params)
    ensures (forall acts: seq<Action> :: Agrees(Exec(par, acts))) <==> !par.cfg.autoBlock || par.cfg.ttlS == 0
  {
    if !par.cfg.autoBlock || par.cfg.ttlS == 0 {
      forall acts: seq<Action> ensures Agrees(Exec(par, acts)) {
        forall i | 0 <= i < |acts| && acts[i].Tick?
          ensures Room(par, Exec(par, acts[..i]), acts[i].snapshot, acts[i].now, acts[i].writes) {
          AlwaysInv(par, acts[..i]);
          assert par.cfg.ttlS != 0 ==>
            TickBlocks(par.cfg, Exec(par, acts[..i]).tracker, acts[i].snapshot, acts[i].now) == {};
        }
        AlwaysAgrees(par, acts);
      }
    } else {
      var acts, tick := AgreementCanEnd(par);
    }
  }

  lemma StillUnlisted(blacklist: set<Prefix>, after: set<Prefix>, ip: u32)
    requires !Listed(blacklist, ip) && after <= blacklist
    ensures !Listed(after, ip) && Prefix(32, ip) !in after
  {
    if Prefix(32, ip) in after {
      ListedHost(after, ip);
    }
  }

  /** A run to a world in which the source is blocked since time 1 but was refused by the
      full blacklist, and its flow has been evicted. */
  lemma BlockRefused(par: Params, n: nat) returns (acts: seq<Action>)
    requires 1 <= n < TWO32 && par.cfg.threshold <= n && par.cfg.autoBlock && par.cfg.ttlS != 0
    ensures var w := Exec(par, acts);
      && Blocked(w.tracker, SRC) && Get(w.tracker.stats, SRC).blockStart == 1 && w.tracker.stats.Keys <= {SRC}
      && w.kernel.flows == map[] && w.clock == 1
      && !Listed(w.kernel.blacklist, SRC) && Prefix(32, SRC) !in w.kernel.blacklist
  {
    var full := FullBlacklist(par, n);
    var blocked := RunBlocks(par, full, n, 1);
    StillUnlisted(Exec(par, full).kernel.blacklist, Exec(par, blocked).kernel.blacklist, SRC);
    OneMore(par, blocked, LruEvict({KEY}));
    acts := blocked + [LruEvict({KEY})];
    assert Exec(par, blocked).kernel.flows - {KEY} == map[];
  }

  /** The run goes on: packets of the source keep passing, and a burst at the deadline
      blocks it again. */
  lemma RefusedBlockRelapses(par: Params) returns (acts: seq<Action>, j: nat, m: nat)
    requires par.cfg.autoBlock && par.cfg.ttlS != 0
    ensures Reblocks(par, acts, j, m, SRC) && !BlockHolds(Exec(par, acts[..j]), SRC)
  {
    var n: nat := if par.cfg.threshold == 0 then 1 else par.cfg.threshold;
    var refused := BlockRefused(par, n);
    var deadline := 1 + par.cfg.TtlNs();
    var again := Burst(par, refused, n, deadline);
    acts := Relapse(par, again, n, deadline, deadline, 1);
    j, m := |again|, |again| + 1;
  }

  // ----- When a block can come back -----

  /** No run issues a block again for a source it unblocked, whose block was in the
      blacklist, without letting a packet from it through in between. */
  ghost predicate NeverReblocks(par: Params) {
    forall acts, j, m, ip :: Reblocks(par, acts, j, m, ip) ==> !BlockHolds(Exec(par, acts[..j]), ip)
  }

  /** With auto-blocking on, that holds if and only if the time-to-live exceeds the
      window. */
  lemma NeverReblocksIff(par: Params)
    requires par.cfg.autoBlock
    ensures NeverReblocks(par) <==> par.cfg.ttlS > par.cfg.windowS
  {
    if par.cfg.ttlS > par.cfg.windowS {
      forall acts, j, m, ip | Reblocks(par, acts, j, m, ip)
        ensures !BlockHolds(Exec(par, acts[..j]), ip) {
        if BlockHolds(Exec(par, acts[..j]), ip) {
          NoReblockWithoutTraffic(par, acts, j, m, ip);
        }
      }
    } else {
      var acts, j, m := ShortBlockRelapses(par);
    }
  }

  /** That the block was in the blacklist cannot be dropped: with auto-blocking on, for
      every threshold, window and time-to-live some run blocks a source again. */
  lemma UnheldBlockComesBack(par: Params) returns (acts: seq<Action>, j: nat, m: nat)
    requires par.cfg.autoBlock
    ensures Reblocks(par, acts, j, m, SRC)
    ensures par.cfg.ttlS > par.cfg.windowS ==> !BlockHolds(Exec(par, acts[..j]), SRC)
  {
    if par.cfg.ttlS > par.cfg.windowS {
      acts, j, m := RefusedBlockRelapses(par);
    } else {
      acts, j, m := ShortBlockRelapses(par);
    }
  }
}
