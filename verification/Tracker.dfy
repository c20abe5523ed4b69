/** The flow tracker (src/core/flow_tracker.cpp) as a function of its state: events,
    flow snapshots, blocking, eviction and expiry. */
module Tracker {
  import opened Words
  import opened Xdp

  const MAX_IP_STATS := 16384
  const IDLE_TTL_NS := 60 * NS_PER_S

  datatype Config = Config(threshold: u32, windowS: u32, autoBlock: bool, ttlS: u32) {
    function WindowNs(): u64 {
      windowS * NS_PER_S
    }
    function TtlNs(): u64 {
      ttlS * NS_PER_S
    }
  }

  datatype Entry = Entry(key: FlowKey, stats: FlowStats)

  datatype Aggregate = Aggregate(src: u32, syn: u32, ack: u32, lastSeen: u64)

  datatype IpStats = IpStats(
    syn: u32, ack: u32, lastEvent: u64, blockStart: u64, generation: u64,
    flagged: bool, blocked: bool, lastTtl: u8)

  const FRESH := IpStats(0, 0, 0, 0, 0, false, false, 0)

  datatype State = State(stats: map<u32, IpStats>, generation: u64)

  const START := State(map[], 0)

  function Get(stats: map<u32, IpStats>, ip: u32): IpStats {
    if ip in stats then stats[ip] else FRESH
  }

  predicate Flagged(t: State, ip: u32) {
    Get(t.stats, ip).flagged
  }

  predicate Blocked(t: State, ip: u32) {
    Get(t.stats, ip).blocked
  }

  /** More than `span` has passed from `then` to `now`. */
  predicate Elapsed(now: u64, then_: u64, span: u64) {
    now > then_ && now - then_ > span
  }

  // ----- process_event -----

  function OnEvent(t: State, e: Event): State {
    var was := Get(t.stats, e.src);
    var ttl := if e.ttl != 0 then e.ttl else was.lastTtl;
    var last := if e.ts > was.lastEvent then e.ts else was.lastEvent;
    t.(stats := t.stats[e.src := was.(lastTtl := ttl, lastEvent := last)])
  }

  // ----- process_flow_snapshot -----

  /** A TCP flow with a packet, and its first one, inside the window. */
  predicate Eligible(e: Entry, now: u64, window: u64) {
    && e.key.proto == 6
    && e.stats.lastSeen != 0
    && !Elapsed(now, e.stats.lastSeen, window)
    && !(e.stats.firstSeen != 0 && Elapsed(now, e.stats.firstSeen, window))
  }

  /** An eligible flow of the source `ip`. */
  predicate Counts(e: Entry, ip: u32, now: u64, window: u64) {
    e.key.src == ip && Eligible(e, now, window)
  }

  function Sources(entries: seq<Entry>, now: u64, window: u64): set<u32> {
    set e | e in entries && Eligible(e, now, window) :: e.key.src
  }

  /** The exact number of SYNs (ACKs) in the eligible flows of `ip`. */
  function SynTotal(entries: seq<Entry>, ip: u32, now: u64, window: u64): nat {
    if entries == [] then 0
    else
      var last := entries[|entries| - 1];
      SynTotal(entries[..|entries| - 1], ip, now, window) +
      (if Counts(last, ip, now, window) then last.stats.syn else 0)
  }

  function AckTotal(entries: seq<Entry>, ip: u32, now: u64, window: u64): nat {
    if entries == [] then 0
    else
      var last := entries[|entries| - 1];
      AckTotal(entries[..|entries| - 1], ip, now, window) +
      (if Counts(last, ip, now, window) then last.stats.ack else 0)
  }

  /** The latest packet in the eligible flows of `ip`, zero when it has none. */
  function Latest(entries: seq<Entry>, ip: u32, now: u64, window: u64): u64 {
    if entries == [] then 0
    else
      var last, rest := entries[|entries| - 1], Latest(entries[..|entries| - 1], ip, now, window);
      if Counts(last, ip, now, window) && last.stats.lastSeen > rest then last.stats.lastSeen else rest
  }

  /** What the snapshot says about one source: sums in 32 bits, latest packet. */
  function Summary(entries: seq<Entry>, ip: u32, now: u64, window: u64): Aggregate {
    Aggregate(ip, Wrap32(SynTotal(entries, ip, now, window)), Wrap32(AckTotal(entries, ip, now, window)),
              Latest(entries, ip, now, window))
  }

  /** The generation counter skips zero when it wraps. */
  function NextGeneration(generation: u64): u64 {
    if generation == TWO64 - 1 then 1 else generation + 1
  }

  function Unmatched(syn: u32, ack: u32): u32 {
    if syn > ack then syn - ack else 0
  }

  /** A source seen in the snapshot: new figures, new stamp, and the flag is sticky. */
  function Refresh(s: IpStats, a: Aggregate, generation: u64, threshold: u32): IpStats {
    s.(syn := a.syn, ack := a.ack, lastEvent := a.lastSeen, generation := generation,
       flagged := s.flagged || Unmatched(a.syn, a.ack) >= threshold)
  }

  /** A source not seen in the snapshot loses figures and flag once it is quiet for
      longer than the window, unless it is blocked. */
  function Decay(s: IpStats, generation: u64, now: u64, window: u64): IpStats {
    if s.generation == generation || s.blocked then s
    else if s.lastEvent == 0 || Elapsed(now, s.lastEvent, window) then s.(syn := 0, ack := 0, flagged := false)
    else s
  }

  function Refreshed(cfg: Config, t: State, entries: seq<Entry>, now: u64): map<u32, IpStats> {
    var sources := Sources(entries, now, cfg.WindowNs());
    map ip | ip in t.stats.Keys + sources ::
      if ip in sources
      then Refresh(Get(t.stats, ip), Summary(entries, ip, now, cfg.WindowNs()),
                   NextGeneration(t.generation), cfg.threshold)
      else t.stats[ip]
  }

  function Decayed(stats: map<u32, IpStats>, generation: u64, now: u64, window: u64): map<u32, IpStats> {
    map ip | ip in stats :: Decay(stats[ip], generation, now, window)
  }

  function OnSnapshot(cfg: Config, t: State, entries: seq<Entry>, now: u64): State {
    var generation := NextGeneration(t.generation);
    State(Decayed(Refreshed(cfg, t, entries, now), generation, now, cfg.WindowNs()), generation)
  }

  // ----- tick_and_get_blocks, evict_idle, get_expired_blocks -----

  predicate DueForBlock(cfg: Config, s: IpStats) {
    s.flagged && !s.blocked && cfg.autoBlock
  }

  function ToBlock(cfg: Config, t: State): set<u32> {
    set ip | ip in t.stats && DueForBlock(cfg, t.stats[ip])
  }

  function Block(cfg: Config, s: IpStats, now: u64): IpStats {
    if DueForBlock(cfg, s) then s.(blocked := true, blockStart := now) else s
  }

  function BlockAll(cfg: Config, t: State, now: u64): State {
    t.(stats := map ip | ip in t.stats :: Block(cfg, t.stats[ip], now))
  }

  predicate Evictable(s: IpStats, now: u64) {
    now > Add64(s.lastEvent, IDLE_TTL_NS) && !s.flagged && !s.blocked
  }

  function EvictIdle(t: State, now: u64): State {
    if |t.stats| > MAX_IP_STATS
    then t.(stats := map ip | ip in t.stats && !Evictable(t.stats[ip], now) :: t.stats[ip])
    else t
  }

  predicate Expired(cfg: Config, s: IpStats, now: u64) {
    s.blocked && now >= Add64(s.blockStart, cfg.TtlNs())
  }

  function ToUnblock(cfg: Config, t: State, now: u64): set<u32> {
    set ip | ip in t.stats && Expired(cfg, t.stats[ip], now)
  }

  function Unblock(cfg: Config, s: IpStats, now: u64): IpStats {
    if Expired(cfg, s, now) then s.(blocked := false, flagged := false, syn := 0, ack := 0) else s
  }

  function UnblockAll(cfg: Config, t: State, now: u64): State {
    t.(stats := map ip | ip in t.stats :: Unblock(cfg, t.stats[ip], now))
  }

  // ----- One tick of `cmd_top` -----

  /** A snapshot, or none when reading the flow map failed. */
  datatype Snapshot = Failed | Taken(entries: seq<Entry>)

  function AfterSnapshot(cfg: Config, t: State, snapshot: Snapshot, now: u64): State {
    if snapshot.Taken? then OnSnapshot(cfg, t, snapshot.entries, now) else t
  }

  /** `evicting` tells whether idle entries are evicted, as the program does. */
  function AfterBlocking(cfg: Config, t: State, now: u64, evicting: bool): State {
    var blocked := BlockAll(cfg, t, now);
    if evicting then EvictIdle(blocked, now) else blocked
  }

  function OnTick(cfg: Config, t: State, snapshot: Snapshot, now: u64, evicting: bool): State {
    UnblockAll(cfg, AfterBlocking(cfg, AfterSnapshot(cfg, t, snapshot, now), now, evicting), now)
  }

  /** The sources a tick blocks, and those it unblocks. */
  function TickBlocks(cfg: Config, t: State, snapshot: Snapshot, now: u64): set<u32> {
    ToBlock(cfg, AfterSnapshot(cfg, t, snapshot, now))
  }

  function TickUnblocks(cfg: Config, t: State, snapshot: Snapshot, now: u64, evicting: bool): set<u32> {
    ToUnblock(cfg, AfterBlocking(cfg, AfterSnapshot(cfg, t, snapshot, now), now, evicting), now)
  }
}
