/** The `FlowTracker` class (src/core/flow_tracker.cpp): the loops over vectors and
    hash maps, proved to compute the functions of module `Tracker`. Hash maps are
    visited in an arbitrary order. */
module TrackerProgram {
  import opened Words
  import opened Xdp
  import opened Tracker

  /** A vector that lists the elements of a set, each once. */
  ghost predicate Lists(v: seq<u32>, s: set<u32>) {
    && (forall ip :: ip in v <==> ip in s)
    && (forall i, j :: 0 <= i < j < |v| ==> v[i] != v[j])
  }

  lemma ListsOneMore(v: seq<u32>, s: set<u32>, ip: u32)
    requires Lists(v, s) && ip !in s
    ensures Lists(v + [ip], s + {ip})
  {
  }

  /** The aggregate vector and its index are inverse to each other, list every source
      with an eligible flow among `entries` once, and hold its summary. */
  ghost predicate Aggregates(index: map<u32, nat>, scratch: seq<Aggregate>,
                             entries: seq<Entry>, now: u64, window: u64) {
    && index.Keys == Sources(entries, now, window)
    && (forall ip :: ip in index ==> index[ip] < |scratch| && scratch[index[ip]].src == ip)
    && (forall i :: 0 <= i < |scratch| ==> scratch[i].src in index && index[scratch[i].src] == i)
    && (forall i :: 0 <= i < |scratch| ==> scratch[i] == Summary(entries, scratch[i].src, now, window))
  }

  lemma SourcesAppend(entries: seq<Entry>, e: Entry, now: u64, window: u64)
    ensures Sources(entries + [e], now, window)
      == Sources(entries, now, window) + (if Eligible(e, now, window) then {e.key.src} else {})
  {
    var after := entries + [e];
    assert e == after[|entries|] && e in after;
    assert forall x :: x in entries ==> x in after;
    assert forall x :: x in after ==> x in entries || x == e;
  }

  /** Appending a flow changes only its own source's summary. */
  lemma SummaryAppend(entries: seq<Entry>, e: Entry, ip: u32, now: u64, window: u64)
    ensures Summary(entries + [e], ip, now, window)
      == if !Counts(e, ip, now, window) then Summary(entries, ip, now, window)
         else
           var a := Summary(entries, ip, now, window);
           Aggregate(ip, Add32(a.syn, e.stats.syn), Add32(a.ack, e.stats.ack),
                     if e.stats.lastSeen > a.lastSeen then e.stats.lastSeen else a.lastSeen)
  {
    var after := entries + [e];
    assert after[..|after| - 1] == entries && after[|after| - 1] == e;
    Add32OfWrap(SynTotal(entries, ip, now, window), e.stats.syn);
    Add32OfWrap(AckTotal(entries, ip, now, window), e.stats.ack);
  }

  /** A source without eligible flows has an empty summary. */
  lemma {:induction false} SummaryOfNone(entries: seq<Entry>, ip: u32, now: u64, window: u64)
    requires ip !in Sources(entries, now, window)
    ensures Summary(entries, ip, now, window) == Aggregate(ip, 0, 0, 0)
  {
    if entries != [] {
      var before, e := entries[..|entries| - 1], entries[|entries| - 1];
      assert entries == before + [e];
      SourcesAppend(before, e, now, window);
      SummaryOfNone(before, ip, now, window);
      SummaryAppend(before, e, ip, now, window);
    }
  }

  /** A first flow of a source extends vector and index. */
  lemma AggregateNew(index: map<u32, nat>, scratch: seq<Aggregate>, before: seq<Entry>, e: Entry,
                     now: u64, window: u64)
    requires Aggregates(index, scratch, before, now, window)
    requires Eligible(e, now, window) && e.key.src !in index
    ensures Aggregates(index[e.key.src := |scratch|],
                       scratch + [Aggregate(e.key.src, e.stats.syn, e.stats.ack, e.stats.lastSeen)],
                       before + [e], now, window)
  {
    SourcesAppend(before, e, now, window);
    SummaryOfNone(before, e.key.src, now, window);
    SummaryAppend(before, e, e.key.src, now, window);
    forall i | 0 <= i < |scratch| ensures scratch[i] == Summary(before + [e], scratch[i].src, now, window) {
      SummaryAppend(before, e, scratch[i].src, now, window);
    }
  }

  /** A further flow of a source changes its aggregate in place. */
  lemma AggregateKnown(index: map<u32, nat>, scratch: seq<Aggregate>, before: seq<Entry>, e: Entry,
                       now: u64, window: u64, a: Aggregate)
    requires Aggregates(index, scratch, before, now, window)
    requires Eligible(e, now, window) && e.key.src in index
    requires var was := scratch[index[e.key.src]];
      a == Aggregate(e.key.src, Add32(was.syn, e.stats.syn), Add32(was.ack, e.stats.ack),
                     if e.stats.lastSeen > was.lastSeen then e.stats.lastSeen else was.lastSeen)
    ensures Aggregates(index, scratch[index[e.key.src] := a], before + [e], now, window)
  {
    SourcesAppend(before, e, now, window);
    SummaryAppend(before, e, e.key.src, now, window);
    forall i | 0 <= i < |scratch| && i != index[e.key.src]
      ensures scratch[i] == Summary(before + [e], scratch[i].src, now, window) {
      SummaryAppend(before, e, scratch[i].src, now, window);
    }
  }

  /** The table `stats` is that of `t` with the first `n` aggregates written to it. */
  ghost predicate Applied(cfg: Config, t: State, index: map<u32, nat>, scratch: seq<Aggregate>,
                          stats: map<u32, IpStats>, n: nat)
    requires forall ip :: ip in index ==> index[ip] < |scratch|
  {
    forall ip :: Get(stats, ip) ==
      (if ip in index && index[ip] < n
       then Refresh(Get(t.stats, ip), scratch[index[ip]], NextGeneration(t.generation), cfg.threshold)
       else Get(t.stats, ip))
      && (ip in stats <==> ip in t.stats || (ip in index && index[ip] < n))
  }

  lemma AppliedNext(cfg: Config, t: State, index: map<u32, nat>, scratch: seq<Aggregate>,
                    stats: map<u32, IpStats>, n: nat)
    requires n < |scratch|
    requires forall ip :: ip in index ==> index[ip] < |scratch| && scratch[index[ip]].src == ip
    requires scratch[n].src in index && index[scratch[n].src] == n
    requires Applied(cfg, t, index, scratch, stats, n)
    ensures var a := scratch[n];
      Applied(cfg, t, index, scratch,
              stats[a.src := Refresh(Get(stats, a.src), a, NextGeneration(t.generation), cfg.threshold)], n + 1)
  {
    var a := scratch[n];
    assert Get(stats, a.src) == Get(t.stats, a.src);
    assert forall ip :: ip in index && index[ip] == n ==> ip == a.src;
  }

  /** With all aggregates written it is the table the specification asks for. */
  lemma RefreshedByAggregates(cfg: Config, t: State, entries: seq<Entry>, now: u64,
                              index: map<u32, nat>, scratch: seq<Aggregate>, stats: map<u32, IpStats>)
    requires Aggregates(index, scratch, entries, now, cfg.WindowNs())
    requires Applied(cfg, t, index, scratch, stats, |scratch|)
    ensures stats == Refreshed(cfg, t, entries, now)
  {
    var target := Refreshed(cfg, t, entries, now);
    assert stats.Keys == target.Keys;
    forall ip | ip in stats ensures stats[ip] == target[ip] {
      if ip in index {
        assert scratch[index[ip]] == Summary(entries, ip, now, cfg.WindowNs());
      }
    }
  }

  class FlowTracker {
    const cfg: Config
    var ipStats: map<u32, IpStats>
    var aggregateIndex: map<u32, nat>
    var aggregateScratch: seq<Aggregate>
    var snapshotGeneration: u64

    ghost function Abs(): State
      reads this
    {
      State(ipStats, snapshotGeneration)
    }

    constructor (cfg: Config)
      ensures this.cfg == cfg && Abs() == START
    {
      this.cfg := cfg;
      ipStats, aggregateIndex, aggregateScratch, snapshotGeneration := map[], map[], [], 0;
    }

    /** `process_event` */
    method ProcessEvent(e: Event)
      modifies `ipStats
      ensures Abs() == OnEvent(old(Abs()), e)
    {
      if e.src !in ipStats {
        ipStats := ipStats[e.src := FRESH];
      }
      if e.ttl != 0 {
        ipStats := ipStats[e.src := ipStats[e.src].(lastTtl := e.ttl)];
      }
      if e.ts > ipStats[e.src].lastEvent {
        ipStats := ipStats[e.src := ipStats[e.src].(lastEvent := e.ts)];
      }
    }

    /** One eligible flow joins the aggregates. */
    method AddFlow(entry: Entry, ghost before: seq<Entry>, now: u64)
      requires Aggregates(aggregateIndex, aggregateScratch, before, now, cfg.WindowNs())
      requires Eligible(entry, now, cfg.WindowNs())
      modifies `aggregateIndex, `aggregateScratch
      ensures Aggregates(aggregateIndex, aggregateScratch, before + [entry], now, cfg.WindowNs())
    {
      if entry.key.src !in aggregateIndex {
        AggregateNew(aggregateIndex, aggregateScratch, before, entry, now, cfg.WindowNs());
        aggregateIndex := aggregateIndex[entry.key.src := |aggregateScratch|];
        aggregateScratch := aggregateScratch +
          [Aggregate(entry.key.src, entry.stats.syn, entry.stats.ack, entry.stats.lastSeen)];
      } else {
        var found := aggregateIndex[entry.key.src];
        var a := aggregateScratch[found];
        a := a.(syn := Add32(a.syn, entry.stats.syn), ack := Add32(a.ack, entry.stats.ack));
        if entry.stats.lastSeen > a.lastSeen {
          a := a.(lastSeen := entry.stats.lastSeen);
        }
        AggregateKnown(aggregateIndex, aggregateScratch, before, entry, now, cfg.WindowNs(), a);
        aggregateScratch := aggregateScratch[found := a];
      }
    }

    /** The first loop of `process_flow_snapshot`. */
    method AggregateFlows(entries: seq<Entry>, now: u64)
      modifies `aggregateIndex, `aggregateScratch
      ensures Aggregates(aggregateIndex, aggregateScratch, entries, now, cfg.WindowNs())
    {
      aggregateScratch := [];
      aggregateIndex := map[];
      for i := 0 to |entries|
        invariant Aggregates(aggregateIndex, aggregateScratch, entries[..i], now, cfg.WindowNs())
      {
        ghost var before := entries[..i];
        var entry := entries[i];
        assert entries[..i + 1] == before + [entry];
        if !Eligible(entry, now, cfg.WindowNs()) {
          SourcesAppend(before, entry, now, cfg.WindowNs());
          forall ip ensures
            Summary(before + [entry], ip, now, cfg.WindowNs()) == Summary(before, ip, now, cfg.WindowNs())
          {
            SummaryAppend(before, entry, ip, now, cfg.WindowNs());
          }
          continue;
        }
        AddFlow(entry, before, now);
      }
      assert entries[..|entries|] == entries;
    }

    /** One aggregate is written to the per-source table. */
    method ApplyAggregate(a: Aggregate)
      modifies `ipStats
      ensures ipStats == old(ipStats)[a.src :=
        Refresh(Get(old(ipStats), a.src), a, snapshotGeneration, cfg.threshold)]
    {
      var stats := if a.src in ipStats then ipStats[a.src] else FRESH;
      stats := stats.(syn := a.syn, ack := a.ack, lastEvent := a.lastSeen, generation := snapshotGeneration);
      var unmatched: u32 := if stats.syn > stats.ack then stats.syn - stats.ack else 0;
      if !stats.flagged && unmatched >= cfg.threshold {
        stats := stats.(flagged := true);
      }
      ipStats := ipStats[a.src := stats];
    }

    /** The second loop: all aggregates are. */
    method ApplyAggregates(ghost t: State, ghost entries: seq<Entry>, ghost now: u64)
      requires Aggregates(aggregateIndex, aggregateScratch, entries, now, cfg.WindowNs())
      requires ipStats == t.stats && snapshotGeneration == NextGeneration(t.generation)
      modifies `ipStats
      ensures ipStats == Refreshed(cfg, t, entries, now)
    {
      for i := 0 to |aggregateScratch|
        invariant Applied(cfg, t, aggregateIndex, aggregateScratch, ipStats, i)
      {
        ghost var was := ipStats;
        ApplyAggregate(aggregateScratch[i]);
        AppliedNext(cfg, t, aggregateIndex, aggregateScratch, was, i);
      }
      RefreshedByAggregates(cfg, t, entries, now, aggregateIndex, aggregateScratch, ipStats);
    }

    /** The third loop: sources that went quiet decay. */
    method DecayQuiet(now: u64)
      modifies `ipStats
      ensures ipStats == Decayed(old(ipStats), snapshotGeneration, now, cfg.WindowNs())
    {
      ghost var target := Decayed(ipStats, snapshotGeneration, now, cfg.WindowNs());
      var todo := ipStats.Keys;
      while todo != {}
        invariant todo <= ipStats.Keys == old(ipStats).Keys
        invariant forall ip :: ip in ipStats ==>
          ipStats[ip] == if ip in todo then old(ipStats)[ip] else target[ip]
        decreases todo
      {
        var ip :| ip in todo;
        todo := todo - {ip};
        var stats := ipStats[ip];
        if stats.generation == snapshotGeneration || stats.blocked {
          continue;
        }
        if stats.lastEvent == 0 || (now > stats.lastEvent && now - stats.lastEvent > cfg.WindowNs()) {
          ipStats := ipStats[ip := stats.(syn := 0, ack := 0, flagged := false)];
        }
      }
      assert ipStats == target;
    }

    /** `process_flow_snapshot` */
    method ProcessFlowSnapshot(entries: seq<Entry>, now: u64)
      modifies this
      ensures Abs() == OnSnapshot(cfg, old(Abs()), entries, now)
    {
      ghost var t := Abs();
      AggregateFlows(entries, now);
      snapshotGeneration := Add64(snapshotGeneration, 1);
      if snapshotGeneration == 0 {
        snapshotGeneration := Add64(snapshotGeneration, 1);
      }
      assert snapshotGeneration == NextGeneration(t.generation);
      ApplyAggregates(t, entries, now);
      DecayQuiet(now);
    }

    /** `evict_idle`, the part over the per-source table */
    method EvictIdleSources(now: u64)
      modifies `ipStats
      ensures Abs() == EvictIdle(old(Abs()), now)
    {
      if |ipStats| > MAX_IP_STATS {
        var todo := ipStats.Keys;
        while todo != {}
          invariant todo <= ipStats.Keys <= old(ipStats).Keys
          invariant forall ip :: ip in ipStats ==> ipStats[ip] == old(ipStats)[ip]
          invariant forall ip :: ip in old(ipStats) && ip !in todo ==>
            (ip in ipStats <==> !Evictable(old(ipStats)[ip], now))
          decreases todo
        {
          var ip :| ip in todo;
          todo := todo - {ip};
          var idle := now > Add64(ipStats[ip].lastEvent, IDLE_TTL_NS);
          if idle && !ipStats[ip].flagged && !ipStats[ip].blocked {
            ipStats := ipStats - {ip};
          }
        }
        assert ipStats == EvictIdle(old(Abs()), now).stats;
      }
    }

    /** The loop of `tick_and_get_blocks` */
    method BlockDue(now: u64) returns (blocks: seq<u32>)
      modifies `ipStats
      ensures Abs() == BlockAll(cfg, old(Abs()), now)
      ensures Lists(blocks, ToBlock(cfg, old(Abs())))
    {
      blocks := [];
      ghost var target, due := BlockAll(cfg, Abs(), now).stats, ToBlock(cfg, Abs());
      var todo := ipStats.Keys;
      while todo != {}
        invariant todo <= ipStats.Keys == old(ipStats).Keys
        invariant forall ip :: ip in ipStats ==>
          ipStats[ip] == if ip in todo then old(ipStats)[ip] else target[ip]
        invariant Lists(blocks, due - todo)
        decreases todo
      {
        var ip :| ip in todo;
        var stats := ipStats[ip];
        if stats.flagged && !stats.blocked && cfg.autoBlock {
          ipStats := ipStats[ip := stats.(blocked := true, blockStart := now)];
          ListsOneMore(blocks, due - todo, ip);
          blocks := blocks + [ip];
        }
        assert due - (todo - {ip}) == due - todo + (if ip in due then {ip} else {});
        todo := todo - {ip};
      }
      assert ipStats == target;
    }

    /** `tick_and_get_blocks` */
    method TickAndGetBlocks(now: u64) returns (blocks: seq<u32>)
      modifies `ipStats
      ensures Abs() == AfterBlocking(cfg, old(Abs()), now, true)
      ensures Lists(blocks, ToBlock(cfg, old(Abs())))
    {
      blocks := BlockDue(now);
      EvictIdleSources(now);
    }

    /** `get_expired_blocks` */
    method GetExpiredBlocks(now: u64) returns (unblocks: seq<u32>)
      modifies `ipStats
      ensures Abs() == UnblockAll(cfg, old(Abs()), now)
      ensures Lists(unblocks, ToUnblock(cfg, old(Abs()), now))
    {
      unblocks := [];
      ghost var target, due := UnblockAll(cfg, Abs(), now).stats, ToUnblock(cfg, Abs(), now);
      var todo := ipStats.Keys;
      while todo != {}
        invariant todo <= ipStats.Keys == old(ipStats).Keys
        invariant forall ip :: ip in ipStats ==>
          ipStats[ip] == if ip in todo then old(ipStats)[ip] else target[ip]
        invariant Lists(unblocks, due - todo)
        decreases todo
      {
        var ip :| ip in todo;
        var stats := ipStats[ip];
        if stats.blocked && now >= Add64(stats.blockStart, cfg.TtlNs()) {
          ipStats := ipStats[ip := stats.(blocked := false, flagged := false, syn := 0, ack := 0)];
          ListsOneMore(unblocks, due - todo, ip);
          unblocks := unblocks + [ip];
        }
        assert due - (todo - {ip}) == due - todo + (if ip in due then {ip} else {});
        todo := todo - {ip};
      }
      assert ipStats == target;
    }

    /** The tracker's part of a `cmd_top` tick: snapshot if it could be read, then
        blocks, then expiries. */
    method Tick(snapshot: Snapshot, now: u64) returns (blocks: seq<u32>, unblocks: seq<u32>)
      modifies this
      ensures Abs() == OnTick(cfg, old(Abs()), snapshot, now, true)
      ensures Lists(blocks, TickBlocks(cfg, old(Abs()), snapshot, now))
      ensures Lists(unblocks, TickUnblocks(cfg, old(Abs()), snapshot, now, true))
    {
      if snapshot.Taken? {
        ProcessFlowSnapshot(snapshot.entries, now);
      }
      blocks := TickAndGetBlocks(now);
      unblocks := GetExpiredBlocks(now);
    }
  }
}
