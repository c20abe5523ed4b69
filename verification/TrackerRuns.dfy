/** Whole runs of the flow tracker under arbitrary events, snapshots and clock
    readings. */
module TrackerRuns {
  import opened Words
  import opened Xdp
  import opened Tracker

  datatype Input =
    | Observe(e: Event)
    | Tick(snapshot: Snapshot, now: u64)

  function Step(cfg: Config, t: State, input: Input, evicting: bool): State {
    match input
    case Observe(e) => OnEvent(t, e)
    case Tick(snapshot, now) => OnTick(cfg, t, snapshot, now, evicting)
  }

  /** The tracker after a run from the start. */
  function Exec(cfg: Config, inputs: seq<Input>, evicting: bool): State {
    if inputs == [] then START
    else Step(cfg, Exec(cfg, inputs[..|inputs| - 1], evicting), inputs[|inputs| - 1], evicting)
  }

  // ----- One source at a time -----

  /** What a snapshot does to one source. */
  function SnapshotOne(cfg: Config, s: IpStats, ip: u32, entries: seq<Entry>, now: u64, generation: u64): IpStats {
    var window := cfg.WindowNs();
    var seen := if ip in Sources(entries, now, window)
                then Refresh(s, Summary(entries, ip, now, window), generation, cfg.threshold) else s;
    Decay(seen, generation, now, window)
  }

  lemma SnapshotAt(cfg: Config, t: State, entries: seq<Entry>, now: u64, ip: u32)
    ensures Get(OnSnapshot(cfg, t, entries, now).stats, ip)
      == SnapshotOne(cfg, Get(t.stats, ip), ip, entries, now, NextGeneration(t.generation))
  {
    var sources := Sources(entries, now, cfg.WindowNs());
    var refreshed := Refreshed(cfg, t, entries, now);
    assert refreshed.Keys == t.stats.Keys + sources;
  }

  lemma BlockAt(cfg: Config, t: State, now: u64, ip: u32)
    ensures Get(BlockAll(cfg, t, now).stats, ip) == Block(cfg, Get(t.stats, ip), now)
    ensures ip in ToBlock(cfg, t) <==> DueForBlock(cfg, Get(t.stats, ip))
  {
  }

  /** Eviction forgets a source that is neither flagged nor blocked, or does nothing
      to it. */
  lemma EvictAt(t: State, now: u64, ip: u32)
    ensures var s := Get(t.stats, ip);
      Get(EvictIdle(t, now).stats, ip) == s
      || (Get(EvictIdle(t, now).stats, ip) == FRESH && !s.flagged && !s.blocked)
  {
  }

  lemma UnblockAt(cfg: Config, t: State, now: u64, ip: u32)
    ensures Get(UnblockAll(cfg, t, now).stats, ip) == Unblock(cfg, Get(t.stats, ip), now)
    ensures ip in ToUnblock(cfg, t, now) <==> Expired(cfg, Get(t.stats, ip), now)
  {
  }

  lemma EventAt(t: State, e: Event, ip: u32)
    ensures var s, after := Get(t.stats, ip), Get(OnEvent(t, e).stats, ip);
      after == s.(lastEvent := after.lastEvent, lastTtl := after.lastTtl)
  {
  }

  // ----- Sampled events between ticks -----

  function FeedEvents(t: State, events: seq<Event>): State {
    if events == [] then t
    else OnEvent(FeedEvents(t, events[..|events| - 1]), events[|events| - 1])
  }

  /** After any events, a source's last activity is the latest of what it was and their
      timestamps, and nothing else but its TTL has changed. */
  lemma {:induction false} EventsRemembered(t: State, events: seq<Event>, ip: u32)
    ensures var s, after := Get(t.stats, ip), Get(FeedEvents(t, events).stats, ip);
      && after == s.(lastEvent := after.lastEvent, lastTtl := after.lastTtl)
      && s.lastEvent <= after.lastEvent
      && (forall i :: 0 <= i < |events| && events[i].src == ip ==> events[i].ts <= after.lastEvent)
      && (after.lastEvent == s.lastEvent
          || exists i :: 0 <= i < |events| && events[i].src == ip && events[i].ts == after.lastEvent)
  {
    if events != [] {
      var n := |events| - 1;
      EventsRemembered(t, events[..n], ip);
      EventAt(FeedEvents(t, events[..n]), events[n], ip);
      var mid := Get(FeedEvents(t, events[..n]).stats, ip);
      var after := Get(FeedEvents(t, events).stats, ip);
      if after.lastEvent == mid.lastEvent != Get(t.stats, ip).lastEvent {
        var i :| 0 <= i < n && events[..n][i].src == ip && events[..n][i].ts == mid.lastEvent;
        assert events[i] == events[..n][i];
      } else if after.lastEvent != mid.lastEvent {
        assert events[n].src == ip && events[n].ts == after.lastEvent;
      }
    }
  }

  /** Its TTL is that of the last event that carried one. */
  lemma {:induction false} LastTtlRemembered(t: State, events: seq<Event>, ip: u32, i: nat)
    requires i < |events| && events[i].src == ip && events[i].ttl != 0
    requires forall j :: i < j < |events| && events[j].src == ip ==> events[j].ttl == 0
    ensures Get(FeedEvents(t, events).stats, ip).lastTtl == events[i].ttl
  {
    var n := |events| - 1;
    if i < n {
      LastTtlRemembered(t, events[..n], ip, i);
    }
  }

  // ----- A snapshot depends only on the multiset of its entries -----

  lemma {:induction false} TotalsWithout(entries: seq<Entry>, i: nat, ip: u32, now: u64, window: u64)
    requires i < |entries|
    ensures var e, rest := entries[i], entries[..i] + entries[i + 1..]; var c := Counts(e, ip, now, window);
      && SynTotal(entries, ip, now, window) == SynTotal(rest, ip, now, window) + (if c then e.stats.syn else 0)
      && AckTotal(entries, ip, now, window) == AckTotal(rest, ip, now, window) + (if c then e.stats.ack else 0)
      && Latest(entries, ip, now, window)
         == (if c && e.stats.lastSeen > Latest(rest, ip, now, window) then e.stats.lastSeen
             else Latest(rest, ip, now, window))
  {
    var n := |entries| - 1;
    var rest := entries[..i] + entries[i + 1..];
    if i == n {
      assert rest == entries[..n];
    } else {
      TotalsWithout(entries[..n], i, ip, now, window);
      assert rest[..n - 1] == entries[..n][..i] + entries[..n][i + 1..];
      assert rest[n - 1] == entries[n];
    }
  }

  lemma {:induction false} SummaryOfPermutation(a: seq<Entry>, b: seq<Entry>, ip: u32, now: u64, window: u64)
    requires multiset(a) == multiset(b)
    ensures SynTotal(a, ip, now, window) == SynTotal(b, ip, now, window)
    ensures AckTotal(a, ip, now, window) == AckTotal(b, ip, now, window)
    ensures Latest(a, ip, now, window) == Latest(b, ip, now, window)
    decreases |a|
  {
    if a == [] {
      assert |multiset(b)| == |multiset(a)| == 0;
    } else {
      var n := |a| - 1;
      var i := MatchLast(a, b);
      SummaryOfPermutation(a[..n], b[..i] + b[i + 1..], ip, now, window);
      TotalsWithout(b, i, ip, now, window);
    }
  }

  /** The last element of `a` also occurs in `b`, and taking it out of both leaves
      permutations again. */
  lemma MatchLast(a: seq<Entry>, b: seq<Entry>) returns (i: nat)
    requires a != [] && multiset(a) == multiset(b)
    ensures i < |b| && b[i] == a[|a| - 1]
    ensures multiset(a[..|a| - 1]) == multiset(b[..i] + b[i + 1..])
  {
    var n := |a| - 1;
    var last := a[n];
    assert a == a[..n] + [last];
    assert last in multiset(b);
    i :| 0 <= i < |b| && b[i] == last;
    assert b == b[..i] + [last] + b[i + 1..];
    assert multiset(b) == multiset(b[..i] + b[i + 1..]) + multiset{last};
    assert multiset(a) == multiset(a[..n]) + multiset{last};
    assert multiset(a[..n]) == multiset(a) - multiset{last};
    assert multiset(b[..i] + b[i + 1..]) == multiset(b) - multiset{last};
  }

  lemma SourcesOfPermutation(a: seq<Entry>, b: seq<Entry>, now: u64, window: u64)
    requires multiset(a) == multiset(b)
    ensures Sources(a, now, window) == Sources(b, now, window)
  {
    assert forall e :: e in a <==> e in multiset(a);
    assert forall e :: e in b <==> e in multiset(b);
  }

  /** The tracker after a snapshot does not depend on the order in which the flow map
      was read. */
  lemma SnapshotOrderIrrelevant(cfg: Config, t: State, a: seq<Entry>, b: seq<Entry>, now: u64)
    requires multiset(a) == multiset(b)
    ensures OnSnapshot(cfg, t, a, now) == OnSnapshot(cfg, t, b, now)
  {
    SourcesOfPermutation(a, b, now, cfg.WindowNs());
    forall ip ensures Summary(a, ip, now, cfg.WindowNs()) == Summary(b, ip, now, cfg.WindowNs()) {
      SummaryOfPermutation(a, b, ip, now, cfg.WindowNs());
    }
    assert Refreshed(cfg, t, a, now) == Refreshed(cfg, t, b, now);
  }

  // ----- What the figures of a source mean -----

  /** A TCP flow of the source that has a packet, the latest and the first of them no more
      than a window ago. */
  ghost predicate InWindow(cfg: Config, e: Entry, ip: u32, now: u64) {
    && e.key.src == ip && e.key.proto == 6
    && e.stats.lastSeen > 0 && now <= e.stats.lastSeen + cfg.windowS * 1_000_000_000
    && (e.stats.firstSeen == 0 || now <= e.stats.firstSeen + cfg.windowS * 1_000_000_000)
  }

  lemma CountsIff(cfg: Config, e: Entry, ip: u32, now: u64)
    ensures Counts(e, ip, now, cfg.WindowNs()) <==> InWindow(cfg, e, ip, now)
  {
  }

  /** The sum of a figure over the flows in the window. */
  ghost function SumInWindow(cfg: Config, entries: seq<Entry>, ip: u32, now: u64, figure: FlowStats -> u32): nat {
    if entries == [] then 0
    else
      var last := entries[|entries| - 1];
      SumInWindow(cfg, entries[..|entries| - 1], ip, now, figure)
      + if InWindow(cfg, last, ip, now) then figure(last.stats) else 0
  }

  lemma {:induction false} TotalsAreSums(cfg: Config, entries: seq<Entry>, ip: u32, now: u64)
    ensures SynTotal(entries, ip, now, cfg.WindowNs()) == SumInWindow(cfg, entries, ip, now, (f: FlowStats) => f.syn)
    ensures AckTotal(entries, ip, now, cfg.WindowNs()) == SumInWindow(cfg, entries, ip, now, (f: FlowStats) => f.ack)
  {
    if entries != [] {
      var n := |entries| - 1;
      TotalsAreSums(cfg, entries[..n], ip, now);
      CountsIff(cfg, entries[n], ip, now);
    }
  }

  /** `latest` is the time of the latest packet among the flows in the window. */
  ghost predicate IsLatest(cfg: Config, entries: seq<Entry>, ip: u32, now: u64, latest: u64) {
    && (forall i :: 0 <= i < |entries| && InWindow(cfg, entries[i], ip, now) ==> entries[i].stats.lastSeen <= latest)
    && (exists i :: 0 <= i < |entries| && InWindow(cfg, entries[i], ip, now) && entries[i].stats.lastSeen == latest)
  }

  lemma {:induction false} LatestIsLatest(cfg: Config, entries: seq<Entry>, ip: u32, now: u64)
    requires exists i :: 0 <= i < |entries| && InWindow(cfg, entries[i], ip, now)
    ensures IsLatest(cfg, entries, ip, now, Latest(entries, ip, now, cfg.WindowNs()))
  {
    var n := |entries| - 1;
    var before, last := entries[..n], entries[n];
    assert forall i :: 0 <= i < n ==> before[i] == entries[i];
    CountsIff(cfg, last, ip, now);
    if exists i :: 0 <= i < n && InWindow(cfg, before[i], ip, now) {
      LatestIsLatest(cfg, before, ip, now);
      var i :| 0 <= i < n && InWindow(cfg, before[i], ip, now)
        && before[i].stats.lastSeen == Latest(before, ip, now, cfg.WindowNs());
      assert InWindow(cfg, entries[i], ip, now);
    } else {
      NoneLatest(cfg, before, ip, now);
    }
  }

  lemma NoneLatest(cfg: Config, entries: seq<Entry>, ip: u32, now: u64)
    requires forall i :: 0 <= i < |entries| ==> !InWindow(cfg, entries[i], ip, now)
    ensures Latest(entries, ip, now, cfg.WindowNs()) == 0
  {
    SeenIff(cfg, entries, ip, now);
    NoLatest(entries, ip, now, cfg.WindowNs());
  }

  /** A source is seen exactly if one of its flows is in the window. */
  lemma SeenIff(cfg: Config, entries: seq<Entry>, ip: u32, now: u64)
    ensures ip in Sources(entries, now, cfg.WindowNs()) <==>
      exists i :: 0 <= i < |entries| && InWindow(cfg, entries[i], ip, now)
  {
    if ip in Sources(entries, now, cfg.WindowNs()) {
      var e :| e in entries && Eligible(e, now, cfg.WindowNs()) && e.key.src == ip;
      CountsIff(cfg, e, ip, now);
      var i :| 0 <= i < |entries| && entries[i] == e;
      assert InWindow(cfg, entries[i], ip, now);
    }
    if i :| 0 <= i < |entries| && InWindow(cfg, entries[i], ip, now) {
      CountsIff(cfg, entries[i], ip, now);
      assert entries[i] in entries;
    }
  }

  /** A source of which a snapshot shows flows has their sums, in 32 bits, as its SYN and
      ACK figures and their latest packet as its last activity. */
  lemma FiguresOfSeen(cfg: Config, t: State, entries: seq<Entry>, now: u64, ip: u32)
    requires exists i :: 0 <= i < |entries| && InWindow(cfg, entries[i], ip, now)
    ensures var s, after := Get(t.stats, ip), Get(OnSnapshot(cfg, t, entries, now).stats, ip);
      && after.syn == SumInWindow(cfg, entries, ip, now, (f: FlowStats) => f.syn) % 0x1_0000_0000
      && after.ack == SumInWindow(cfg, entries, ip, now, (f: FlowStats) => f.ack) % 0x1_0000_0000
      && IsLatest(cfg, entries, ip, now, after.lastEvent)
      && after.blocked == s.blocked && after.blockStart == s.blockStart && after.lastTtl == s.lastTtl
      && (s.flagged ==> after.flagged)
  {
    SeenIff(cfg, entries, ip, now);
    SnapshotAt(cfg, t, entries, now, ip);
    TotalsAreSums(cfg, entries, ip, now);
    LatestIsLatest(cfg, entries, ip, now);
    Wrap32IsMod(SynTotal(entries, ip, now, cfg.WindowNs()));
    Wrap32IsMod(AckTotal(entries, ip, now, cfg.WindowNs()));
  }

  /** Any other source loses its figures and its flag exactly if it is not blocked, was not
      stamped with the new generation, and has shown no activity for longer than the
      window; otherwise the snapshot leaves it as it was. */
  lemma FiguresOfUnseen(cfg: Config, t: State, entries: seq<Entry>, now: u64, ip: u32)
    requires forall i :: 0 <= i < |entries| ==> !InWindow(cfg, entries[i], ip, now)
    ensures var s, t1 := Get(t.stats, ip), OnSnapshot(cfg, t, entries, now);
      var active := s.lastEvent > 0 && now <= s.lastEvent + cfg.windowS * 1_000_000_000;
      Get(t1.stats, ip) == if active || s.blocked || s.generation == t1.generation then s
                           else s.(syn := 0, ack := 0, flagged := false)
  {
    SeenIff(cfg, entries, ip, now);
    SnapshotAt(cfg, t, entries, now, ip);
  }

  /** The rest of a tick: a source whose block expires loses block, flag and figures, one
      that is due is blocked from now on, and one that is neither keeps what it has unless
      it is evicted. */
  lemma FiguresAfterTick(cfg: Config, t: State, snapshot: Snapshot, now: u64, ip: u32)
    requires Blocked(t, ip) ==> Flagged(t, ip) && cfg.autoBlock
    ensures var s := Get(AfterSnapshot(cfg, t, snapshot, now).stats, ip);
      var after := Get(OnTick(cfg, t, snapshot, now, true).stats, ip);
      var due := s.flagged && !s.blocked && cfg.autoBlock;
      var b := if due then s.(blocked := true, blockStart := now) else s;
      if ip in TickUnblocks(cfg, t, snapshot, now, true)
      then b.blocked && after == b.(blocked := false, flagged := false, syn := 0, ack := 0)
      else after == b || (!s.flagged && !s.blocked && after == FRESH)
  {
    TickAt(cfg, t, snapshot, now, true, ip);
    var t1 := AfterSnapshot(cfg, t, snapshot, now);
    BlockAt(cfg, t1, now, ip);
    EvictAt(BlockAll(cfg, t1, now), now, ip);
    UnblockAt(cfg, AfterBlocking(cfg, t1, now, true), now, ip);
  }

  /** A tick keeps in the table what the snapshot left there, but for the sources that are
      evicted before the expired blocks are lifted. */
  lemma StaysInTable(cfg: Config, t: State, snapshot: Snapshot, now: u64, ip: u32)
    ensures var t1, after := AfterSnapshot(cfg, t, snapshot, now), OnTick(cfg, t, snapshot, now, true);
      ip in after.stats <==>
        ip in t1.stats && !(|t1.stats| > 16384 && !t1.stats[ip].flagged && !t1.stats[ip].blocked
                            && now > Add64(t1.stats[ip].lastEvent, 60_000_000_000))
  {
    var t1 := AfterSnapshot(cfg, t, snapshot, now);
    var blocked := BlockAll(cfg, t1, now);
    assert blocked.stats.Keys == t1.stats.Keys;
    assert |blocked.stats| == |blocked.stats.Keys| == |t1.stats|;
    if ip in t1.stats {
      BlockAt(cfg, t1, now, ip);
    }
  }

  /** Eviction removes a source exactly if the table has more than 16384 entries and the
      source is neither flagged nor blocked and has shown no activity for a minute (the
      deadline is a 64-bit number). */
  lemma EvictedIff(t: State, now: u64, ip: u32)
    requires ip in t.stats
    ensures var deadline := t.stats[ip].lastEvent + 60_000_000_000;
      ip !in EvictIdle(t, now).stats <==>
      && |t.stats| > 16384 && now > (if deadline < TWO64 then deadline else deadline - TWO64)
      && !t.stats[ip].flagged && !t.stats[ip].blocked
    ensures forall other :: other in EvictIdle(t, now).stats ==>
      other in t.stats && EvictIdle(t, now).stats[other] == t.stats[other]
  {
    var deadline := t.stats[ip].lastEvent + 60_000_000_000;
    assert IDLE_TTL_NS == 60_000_000_000;
    if deadline >= TWO64 {
      assert Wrap64(deadline) == Wrap64(deadline - TWO64) == deadline - TWO64;
    }
  }

  // ----- Eviction is invisible -----

  /** Two trackers that make the same decisions about a source: what they remember of
      it may differ only while it is not flagged. */
  ghost predicate SameDecisions(s: IpStats, t: IpStats) {
    && s.flagged == t.flagged
    && s.blocked == t.blocked
    && (s.blocked ==> s.flagged && s.blockStart == t.blockStart)
    && (s.flagged ==> s.lastEvent == t.lastEvent && s.generation == t.generation)
  }

  ghost predicate Similar(a: State, b: State) {
    && a.generation == b.generation
    && forall ip :: SameDecisions(Get(a.stats, ip), Get(b.stats, ip))
  }

  lemma SnapshotKeepsSimilar(cfg: Config, a: State, b: State, entries: seq<Entry>, now: u64)
    requires Similar(a, b)
    ensures Similar(OnSnapshot(cfg, a, entries, now), OnSnapshot(cfg, b, entries, now))
  {
    forall ip ensures SameDecisions(Get(OnSnapshot(cfg, a, entries, now).stats, ip),
                                    Get(OnSnapshot(cfg, b, entries, now).stats, ip)) {
      SnapshotAt(cfg, a, entries, now, ip);
      SnapshotAt(cfg, b, entries, now, ip);
      assert SameDecisions(Get(a.stats, ip), Get(b.stats, ip));
    }
  }

  lemma BlockKeepsSimilar(cfg: Config, a: State, b: State, now: u64)
    requires Similar(a, b)
    ensures Similar(BlockAll(cfg, a, now), BlockAll(cfg, b, now))
    ensures ToBlock(cfg, a) == ToBlock(cfg, b)
  {
    forall ip ensures SameDecisions(Get(BlockAll(cfg, a, now).stats, ip), Get(BlockAll(cfg, b, now).stats, ip))
      && (ip in ToBlock(cfg, a) <==> ip in ToBlock(cfg, b)) {
      BlockAt(cfg, a, now, ip);
      BlockAt(cfg, b, now, ip);
      assert SameDecisions(Get(a.stats, ip), Get(b.stats, ip));
    }
  }

  lemma EvictKeepsSimilar(a: State, b: State, now: u64)
    requires Similar(a, b)
    ensures Similar(EvictIdle(a, now), b)
  {
    forall ip ensures SameDecisions(Get(EvictIdle(a, now).stats, ip), Get(b.stats, ip)) {
      EvictAt(a, now, ip);
      assert SameDecisions(Get(a.stats, ip), Get(b.stats, ip));
    }
  }

  lemma UnblockKeepsSimilar(cfg: Config, a: State, b: State, now: u64)
    requires Similar(a, b)
    ensures Similar(UnblockAll(cfg, a, now), UnblockAll(cfg, b, now))
    ensures ToUnblock(cfg, a, now) == ToUnblock(cfg, b, now)
  {
    forall ip ensures SameDecisions(Get(UnblockAll(cfg, a, now).stats, ip), Get(UnblockAll(cfg, b, now).stats, ip))
      && (ip in ToUnblock(cfg, a, now) <==> ip in ToUnblock(cfg, b, now)) {
      UnblockAt(cfg, a, now, ip);
      UnblockAt(cfg, b, now, ip);
      assert SameDecisions(Get(a.stats, ip), Get(b.stats, ip));
    }
  }

  lemma EventKeepsSimilar(a: State, b: State, e: Event)
    requires Similar(a, b)
    ensures Similar(OnEvent(a, e), OnEvent(b, e))
  {
    forall ip ensures SameDecisions(Get(OnEvent(a, e).stats, ip), Get(OnEvent(b, e).stats, ip)) {
      assert SameDecisions(Get(a.stats, ip), Get(b.stats, ip));
    }
  }

  /** What a tick decides: the sources flagged once the snapshot is in, those it
      blocks and those it unblocks. */
  datatype Decision = Decision(flagged: set<u32>, blocks: set<u32>, unblocks: set<u32>)

  function FlaggedSources(t: State): set<u32> {
    set ip | ip in t.stats && t.stats[ip].flagged
  }

  function Decide(cfg: Config, t: State, snapshot: Snapshot, now: u64, evicting: bool): Decision {
    Decision(FlaggedSources(AfterSnapshot(cfg, t, snapshot, now)),
             TickBlocks(cfg, t, snapshot, now),
             TickUnblocks(cfg, t, snapshot, now, evicting))
  }

  /** The decisions of all ticks of a run, in order. */
  function Decisions(cfg: Config, inputs: seq<Input>, evicting: bool): seq<Decision> {
    if inputs == [] then []
    else
      var before, last := inputs[..|inputs| - 1], inputs[|inputs| - 1];
      Decisions(cfg, before, evicting) +
      (if last.Tick? then [Decide(cfg, Exec(cfg, before, evicting), last.snapshot, last.now, evicting)] else [])
  }

  lemma SimilarFlags(a: State, b: State)
    requires Similar(a, b)
    ensures FlaggedSources(a) == FlaggedSources(b)
  {
    forall ip ensures ip in FlaggedSources(a) <==> ip in FlaggedSources(b) {
      assert SameDecisions(Get(a.stats, ip), Get(b.stats, ip));
    }
  }

  lemma TickKeepsSimilar(cfg: Config, a: State, b: State, snapshot: Snapshot, now: u64)
    requires Similar(a, b)
    ensures Similar(OnTick(cfg, a, snapshot, now, true), OnTick(cfg, b, snapshot, now, false))
    ensures Decide(cfg, a, snapshot, now, true) == Decide(cfg, b, snapshot, now, false)
  {
    var a1, b1 := AfterSnapshot(cfg, a, snapshot, now), AfterSnapshot(cfg, b, snapshot, now);
    if snapshot.Taken? {
      SnapshotKeepsSimilar(cfg, a, b, snapshot.entries, now);
    }
    SimilarFlags(a1, b1);
    BlockKeepsSimilar(cfg, a1, b1, now);
    var a2, b2 := BlockAll(cfg, a1, now), BlockAll(cfg, b1, now);
    EvictKeepsSimilar(a2, b2, now);
    UnblockKeepsSimilar(cfg, EvictIdle(a2, now), b2, now);
  }

  /** In every run a tracker that evicts idle sources and one that never does flag,
      block and unblock the same sources at each tick. */
  lemma {:induction false} EvictionInvisible(cfg: Config, inputs: seq<Input>)
    ensures Decisions(cfg, inputs, true) == Decisions(cfg, inputs, false)
    ensures Similar(Exec(cfg, inputs, true), Exec(cfg, inputs, false))
  {
    if inputs != [] {
      var before, last := inputs[..|inputs| - 1], inputs[|inputs| - 1];
      EvictionInvisible(cfg, before);
      var a, b := Exec(cfg, before, true), Exec(cfg, before, false);
      match last
      case Observe(e) => EventKeepsSimilar(a, b, e);
      case Tick(snapshot, now) => TickKeepsSimilar(cfg, a, b, snapshot, now);
    }
  }

  // ----- Flags, blocks, and how they alternate -----

  /** Between inputs: a blocked source is flagged, and with auto-blocking on a flagged
      source is blocked. */
  ghost predicate FlagsAgree(cfg: Config, t: State) {
    forall ip :: (Blocked(t, ip) ==> Flagged(t, ip) && cfg.autoBlock)
              && (Flagged(t, ip) && cfg.autoBlock ==> Blocked(t, ip))
  }

  lemma TickAt(cfg: Config, t: State, snapshot: Snapshot, now: u64, evicting: bool, ip: u32)
    requires Blocked(t, ip) ==> Flagged(t, ip) && cfg.autoBlock
    ensures var s := Get(t.stats, ip);
      var s1 := Get(AfterSnapshot(cfg, t, snapshot, now).stats, ip);
      var s2 := Block(cfg, s1, now);
      var after := Get(OnTick(cfg, t, snapshot, now, evicting).stats, ip);
      && s1.blocked == s.blocked && s1.blockStart == s.blockStart && (s1.blocked ==> s1.flagged)
      && (s2.flagged || s2.blocked ==> after == Unblock(cfg, s2, now))
      && (!s2.flagged ==> !after.flagged && !after.blocked)
      && (ip in TickBlocks(cfg, t, snapshot, now) <==> DueForBlock(cfg, s1))
      && (ip in TickUnblocks(cfg, t, snapshot, now, evicting) <==> Expired(cfg, s2, now))
  {
    var t1 := AfterSnapshot(cfg, t, snapshot, now);
    if snapshot.Taken? {
      SnapshotAt(cfg, t, snapshot.entries, now, ip);
    }
    BlockAt(cfg, t1, now, ip);
    EvictAt(BlockAll(cfg, t1, now), now, ip);
    UnblockAt(cfg, AfterBlocking(cfg, t1, now, evicting), now, ip);
  }

  lemma {:induction false} FlagsAlwaysAgree(cfg: Config, inputs: seq<Input>)
    ensures FlagsAgree(cfg, Exec(cfg, inputs, true))
  {
    if inputs != [] {
      var before, last := inputs[..|inputs| - 1], inputs[|inputs| - 1];
      FlagsAlwaysAgree(cfg, before);
      StepKeepsFlags(cfg, Exec(cfg, before, true), last);
    }
  }

  lemma StepKeepsFlags(cfg: Config, t: State, input: Input)
    requires FlagsAgree(cfg, t)
    ensures FlagsAgree(cfg, Step(cfg, t, input, true))
  {
    forall ip ensures var after := Step(cfg, t, input, true);
      (Blocked(after, ip) ==> Flagged(after, ip) && cfg.autoBlock)
      && (Flagged(after, ip) && cfg.autoBlock ==> Blocked(after, ip)) {
      assert Blocked(t, ip) ==> Flagged(t, ip) && cfg.autoBlock;
      match input
      case Observe(e) => EventAt(t, e, ip);
      case Tick(snapshot, now) => TickAt(cfg, t, snapshot, now, true, ip);
    }
  }

  /** The commands one input issues for one source: a block (true), an unblock
      (false), or one after the other. */
  function Issued(cfg: Config, t: State, input: Input, ip: u32): seq<bool> {
    if input.Observe? then []
    else
      (if ip in TickBlocks(cfg, t, input.snapshot, input.now) then [true] else []) +
      (if ip in TickUnblocks(cfg, t, input.snapshot, input.now, true) then [false] else [])
  }

  /** The commands a run issues for one source, in order. */
  function Commands(cfg: Config, inputs: seq<Input>, ip: u32): seq<bool> {
    if inputs == [] then []
    else
      var before, last := inputs[..|inputs| - 1], inputs[|inputs| - 1];
      Commands(cfg, before, ip) + Issued(cfg, Exec(cfg, before, true), last, ip)
  }

  /** The commands that can come next, from a source blocked or not to one blocked or
      not. */
  ghost predicate InTurn(was: bool, cmds: seq<bool>, becomes: bool) {
    if was then cmds == (if becomes then [] else [false])
    else if becomes then cmds == [true]
    else cmds == [] || cmds == [true, false]
  }

  lemma IssuedInTurn(cfg: Config, t: State, input: Input, ip: u32)
    requires FlagsAgree(cfg, t)
    ensures InTurn(Blocked(t, ip), Issued(cfg, t, input, ip), Blocked(Step(cfg, t, input, true), ip))
  {
    assert Blocked(t, ip) ==> Flagged(t, ip) && cfg.autoBlock;
    match input
    case Observe(e) => EventAt(t, e, ip);
    case Tick(snapshot, now) => TickAt(cfg, t, snapshot, now, true, ip);
  }

  /** A block first, then unblocks and blocks in turn, with one block outstanding
      exactly if `blocked`. */
  ghost predicate Alternating(cmds: seq<bool>, blocked: bool) {
    && (forall i :: 0 <= i < |cmds| ==> cmds[i] == (i % 2 == 0))
    && (blocked <==> |cmds| % 2 == 1)
  }

  lemma InTurnAlternates(cmds: seq<bool>, was: bool, more: seq<bool>, becomes: bool)
    requires Alternating(cmds, was) && InTurn(was, more, becomes)
    ensures Alternating(cmds + more, becomes)
  {
  }

  /** Per source, blocks and unblocks strictly alternate, starting with a block, and
      the source is blocked exactly while a block is outstanding. */
  lemma {:induction false} CommandsAlternate(cfg: Config, inputs: seq<Input>, ip: u32)
    ensures Alternating(Commands(cfg, inputs, ip), Blocked(Exec(cfg, inputs, true), ip))
  {
    if inputs != [] {
      var before, last := inputs[..|inputs| - 1], inputs[|inputs| - 1];
      var t := Exec(cfg, before, true);
      CommandsAlternate(cfg, before, ip);
      FlagsAlwaysAgree(cfg, before);
      IssuedInTurn(cfg, t, last, ip);
      InTurnAlternates(Commands(cfg, before, ip), Blocked(t, ip), Issued(cfg, t, last, ip),
                       Blocked(Step(cfg, t, last, true), ip));
    }
  }

  // ----- Generation stamps and flag freshness -----

  /** The number of snapshots taken in a run. */
  function Snapshots(inputs: seq<Input>): nat {
    if inputs == [] then 0
    else
      var last := inputs[|inputs| - 1];
      Snapshots(inputs[..|inputs| - 1]) + One(last.Tick? && last.snapshot.Taken?)
  }

  ghost predicate StampsBelow(t: State) {
    forall ip :: Get(t.stats, ip).generation <= t.generation
  }

  /** Until the counter wraps it equals the number of snapshots, and no stamp is ahead
      of it. */
  lemma {:induction false} StampsGrow(cfg: Config, inputs: seq<Input>)
    requires Snapshots(inputs) < TWO64
    ensures var t := Exec(cfg, inputs, true);
      t.generation == Snapshots(inputs) && StampsBelow(t)
  {
    if inputs != [] {
      var before, last := inputs[..|inputs| - 1], inputs[|inputs| - 1];
      StampsGrow(cfg, before);
      var t := Exec(cfg, before, true);
      match last
      case Observe(e) =>
        forall ip ensures Get(OnEvent(t, e).stats, ip).generation <= t.generation {
          EventAt(t, e, ip);
        }
      case Tick(snapshot, now) => TickKeepsStamps(cfg, t, snapshot, now);
    }
  }

  lemma TickKeepsStamps(cfg: Config, t: State, snapshot: Snapshot, now: u64)
    requires StampsBelow(t)
    requires snapshot.Taken? ==> t.generation < TWO64 - 1
    ensures var after := OnTick(cfg, t, snapshot, now, true);
      StampsBelow(after) && after.generation == t.generation + One(snapshot.Taken?)
  {
    var t1 := AfterSnapshot(cfg, t, snapshot, now);
    forall ip ensures Get(OnTick(cfg, t, snapshot, now, true).stats, ip).generation <= t1.generation {
      if snapshot.Taken? {
        SnapshotAt(cfg, t, snapshot.entries, now, ip);
      }
      assert Get(t1.stats, ip).generation <= t1.generation;
      BlockAt(cfg, t1, now, ip);
      EvictAt(BlockAll(cfg, t1, now), now, ip);
      UnblockAt(cfg, AfterBlocking(cfg, t1, now, true), now, ip);
    }
  }

  /** The current stamp marks exactly the sources with an eligible flow. */
  ghost predicate StampsExact(cfg: Config, t: State, entries: seq<Entry>, now: u64) {
    forall ip :: Get(t.stats, ip).generation == t.generation <==> ip in Sources(entries, now, cfg.WindowNs())
  }

  /** A flagged source that is not blocked has been seen within the window. */
  ghost predicate Fresh(cfg: Config, s: IpStats, now: u64) {
    s.flagged && !s.blocked ==> s.lastEvent != 0 && !Elapsed(now, s.lastEvent, cfg.WindowNs())
  }

  ghost predicate FlagsFresh(cfg: Config, t: State, now: u64) {
    forall ip :: Fresh(cfg, Get(t.stats, ip), now)
  }

  lemma {:induction false} LatestIsFresh(entries: seq<Entry>, ip: u32, now: u64, window: u64)
    requires ip in Sources(entries, now, window)
    ensures Latest(entries, ip, now, window) != 0
    ensures !Elapsed(now, Latest(entries, ip, now, window), window)
  {
    var n := |entries| - 1;
    var last := entries[n];
    assert forall e :: e in entries ==> e in entries[..n] || e == last;
    if !Counts(last, ip, now, window) || Latest(entries[..n], ip, now, window) >= last.stats.lastSeen {
      assert ip in Sources(entries[..n], now, window) by {
        if ip !in Sources(entries[..n], now, window) {
          NoLatest(entries[..n], ip, now, window);
        }
      }
      LatestIsFresh(entries[..n], ip, now, window);
    }
  }

  lemma {:induction false} NoLatest(entries: seq<Entry>, ip: u32, now: u64, window: u64)
    requires ip !in Sources(entries, now, window)
    ensures Latest(entries, ip, now, window) == 0
  {
    if entries != [] {
      var n := |entries| - 1;
      assert entries[n] in entries;
      assert forall e :: e in entries[..n] ==> e in entries;
      NoLatest(entries[..n], ip, now, window);
    }
  }

  /** Every one of the first 2^64 - 1 snapshots of a run leaves exact stamps and fresh
      flags. */
  lemma StampsExactUntilWrap(cfg: Config, inputs: seq<Input>, entries: seq<Entry>, now: u64)
    requires Snapshots(inputs) < TWO64 - 1
    ensures StampsExact(cfg, OnSnapshot(cfg, Exec(cfg, inputs, true), entries, now), entries, now)
    ensures FlagsFresh(cfg, OnSnapshot(cfg, Exec(cfg, inputs, true), entries, now), now)
  {
    StampsGrow(cfg, inputs);
    var t := Exec(cfg, inputs, true);
    var after := OnSnapshot(cfg, t, entries, now);
    forall ip ensures Fresh(cfg, Get(after.stats, ip), now)
      && (Get(after.stats, ip).generation == after.generation <==> ip in Sources(entries, now, cfg.WindowNs())) {
      SnapshotAt(cfg, t, entries, now, ip);
      assert Get(t.stats, ip).generation <= t.generation;
      if ip in Sources(entries, now, cfg.WindowNs()) {
        LatestIsFresh(entries, ip, now, cfg.WindowNs());
      }
    }
  }

  /** With auto-blocking every snapshot of a run leaves fresh flags: a flag it did not
      renew belongs to a blocked source. */
  lemma BlockingKeepsFlagsFresh(cfg: Config, inputs: seq<Input>, entries: seq<Entry>, now: u64)
    requires cfg.autoBlock
    ensures FlagsFresh(cfg, OnSnapshot(cfg, Exec(cfg, inputs, true), entries, now), now)
  {
    FlagsAlwaysAgree(cfg, inputs);
    var t := Exec(cfg, inputs, true);
    forall ip ensures Fresh(cfg, Get(OnSnapshot(cfg, t, entries, now).stats, ip), now) {
      SnapshotAt(cfg, t, entries, now, ip);
      assert Flagged(t, ip) && cfg.autoBlock ==> Blocked(t, ip);
      if ip in Sources(entries, now, cfg.WindowNs()) {
        LatestIsFresh(entries, ip, now, cfg.WindowNs());
      }
    }
  }

  // The bound is exact: after 2^64 - 1 snapshots every stamp comes back.

  const LONE_SOURCE: u32 := 0x7f00_0001

  /** One TCP flow of one source, with SYNs enough to be flagged, at time 1. */
  function LoneFlow(cfg: Config): Entry {
    Entry(FlowKey(LONE_SOURCE, LONE_SOURCE, 1, 1, 6), FlowStats(cfg.threshold, 0, 1, 1))
  }

  /** The lone source is all the tracker knows; it was stamped `stamp` at time 1 and,
      without auto-blocking, is flagged. */
  ghost predicate LoneKnown(cfg: Config, t: State, stamp: u64) {
    && t.stats.Keys == {LONE_SOURCE}
    && t.stats[LONE_SOURCE].generation == stamp
    && t.stats[LONE_SOURCE].lastEvent == 1
    && (!cfg.autoBlock ==> t.stats[LONE_SOURCE].flagged && !t.stats[LONE_SOURCE].blocked)
  }

  /** The rest of a tick keeps it. */
  lemma LoneTickRest(cfg: Config, t: State, stamp: u64)
    requires LoneKnown(cfg, t, stamp)
    ensures LoneKnown(cfg, UnblockAll(cfg, AfterBlocking(cfg, t, 1, true), 1), stamp)
  {
    var blocked := BlockAll(cfg, t, 1);
    assert blocked.stats.Keys == {LONE_SOURCE};
    assert |blocked.stats| == |blocked.stats.Keys| == 1;
    assert EvictIdle(blocked, 1) == blocked;
    assert UnblockAll(cfg, blocked, 1).stats.Keys == {LONE_SOURCE};
  }

  lemma LoneSnapshot(cfg: Config, t: State)
    requires t.stats == map[]
    ensures LoneKnown(cfg, OnSnapshot(cfg, t, [LoneFlow(cfg)], 1), NextGeneration(t.generation))
  {
    var entries, window := [LoneFlow(cfg)], cfg.WindowNs();
    assert entries[..|entries| - 1] == [] && LoneFlow(cfg) in entries;
    assert Eligible(LoneFlow(cfg), 1, window);
    assert Sources(entries, 1, window) == {LONE_SOURCE};
    assert SynTotal(entries, LONE_SOURCE, 1, window) == cfg.threshold;
    assert AckTotal(entries, LONE_SOURCE, 1, window) == 0;
    assert Latest(entries, LONE_SOURCE, 1, window) == 1;
    SnapshotAt(cfg, t, entries, 1, LONE_SOURCE);
    assert OnSnapshot(cfg, t, entries, 1).stats.Keys == {LONE_SOURCE};
  }

  lemma EmptySnapshot(cfg: Config, t: State, stamp: u64)
    requires LoneKnown(cfg, t, stamp)
    ensures LoneKnown(cfg, OnSnapshot(cfg, t, [], 1), stamp)
  {
    assert Sources([], 1, cfg.WindowNs()) == {};
    SnapshotAt(cfg, t, [], 1, LONE_SOURCE);
    assert OnSnapshot(cfg, t, [], 1).stats.Keys == {LONE_SOURCE};
  }

  /** A run of `n` empty snapshots. */
  lemma {:induction false} EmptyRun(cfg: Config, n: nat) returns (run: seq<Input>)
    ensures Exec(cfg, run, true).stats == map[] && Snapshots(run) == n
  {
    run := [];
    if n > 0 {
      var before := EmptyRun(cfg, n - 1);
      EmptyTick(cfg, Exec(cfg, before, true));
      OneMore(cfg, before, Tick(Taken([]), 1));
      run := before + [Tick(Taken([]), 1)];
    }
  }

  lemma EmptyTick(cfg: Config, t: State)
    requires t.stats == map[]
    ensures OnTick(cfg, t, Taken([]), 1, true).stats == map[]
  {
    assert Sources([], 1, cfg.WindowNs()) == {};
    var t1 := OnSnapshot(cfg, t, [], 1);
    assert t1.stats == map[];
    assert BlockAll(cfg, t1, 1).stats == map[];
  }

  /** The counter after `m` snapshots more, not twice around. */
  function GenerationLater(generation: u64, m: nat): (g: int) {
    if generation + m < TWO64 then generation + m else generation + m - (TWO64 - 1)
  }

  lemma OneMore(cfg: Config, before: seq<Input>, last: Input)
    ensures Exec(cfg, before + [last], true) == Step(cfg, Exec(cfg, before, true), last, true)
    ensures Snapshots(before + [last]) == Snapshots(before) + One(last.Tick? && last.snapshot.Taken?)
  {
    var run := before + [last];
    assert run[..|run| - 1] == before;
  }

  lemma LoneTick(cfg: Config, t: State)
    requires t.stats == map[]
    ensures var after := OnTick(cfg, t, Taken([LoneFlow(cfg)]), 1, true);
      LoneKnown(cfg, after, NextGeneration(t.generation)) && after.generation == NextGeneration(t.generation)
  {
    LoneSnapshot(cfg, t);
    LoneTickRest(cfg, OnSnapshot(cfg, t, [LoneFlow(cfg)], 1), NextGeneration(t.generation));
  }

  lemma LaterTick(cfg: Config, t: State, stamp: u64)
    requires LoneKnown(cfg, t, stamp)
    ensures var after := OnTick(cfg, t, Taken([]), 1, true);
      LoneKnown(cfg, after, stamp) && after.generation == NextGeneration(t.generation)
  {
    EmptySnapshot(cfg, t, stamp);
    LoneTickRest(cfg, OnSnapshot(cfg, t, [], 1), stamp);
  }

  /** A run of `k` empty snapshots, one with the lone flow, and `m` more empty ones. */
  lemma {:induction false} LoneRun(cfg: Config, k: nat, m: nat) returns (run: seq<Input>, stamp: u64)
    requires m <= TWO64 - 2
    ensures stamp > 0 && LoneKnown(cfg, Exec(cfg, run, true), stamp)
    ensures Exec(cfg, run, true).generation == GenerationLater(stamp, m)
    ensures Snapshots(run) == k + 1 + m
    decreases m
  {
    if m == 0 {
      var before := EmptyRun(cfg, k);
      stamp := NextGeneration(Exec(cfg, before, true).generation);
      LoneTick(cfg, Exec(cfg, before, true));
      OneMore(cfg, before, Tick(Taken([LoneFlow(cfg)]), 1));
      run := before + [Tick(Taken([LoneFlow(cfg)]), 1)];
    } else {
      var before;
      before, stamp := LoneRun(cfg, k, m - 1);
      LaterTick(cfg, Exec(cfg, before, true), stamp);
      OneMore(cfg, before, Tick(Taken([]), 1));
      run := before + [Tick(Taken([]), 1)];
    }
  }

  /** The next snapshot of such a run reuses the stamp, and so mistakes a source that
      has been quiet for longer than the window for one it has just seen. */
  lemma StampComesBack(cfg: Config, t: State, stamp: u64, now: u64)
    requires stamp > 0 && LoneKnown(cfg, t, stamp) && t.generation == GenerationLater(stamp, TWO64 - 2)
    requires now == cfg.WindowNs() + 2
    ensures !StampsExact(cfg, OnSnapshot(cfg, t, [], now), [], now)
    ensures !cfg.autoBlock ==> !FlagsFresh(cfg, OnSnapshot(cfg, t, [], now), now)
  {
    SnapshotAt(cfg, t, [], now, LONE_SOURCE);
    assert LONE_SOURCE !in Sources([], now, cfg.WindowNs());
    var s := Get(OnSnapshot(cfg, t, [], now).stats, LONE_SOURCE);
    assert NextGeneration(t.generation) == stamp == s.generation;
    assert !cfg.autoBlock ==> !Fresh(cfg, s, now);
  }

  lemma RunThatWraps(cfg: Config, n: nat) returns (run: seq<Input>, now: u64)
    requires n >= TWO64 - 1
    ensures Snapshots(run) == n
    ensures !StampsExact(cfg, OnSnapshot(cfg, Exec(cfg, run, true), [], now), [], now)
    ensures !cfg.autoBlock ==> !FlagsFresh(cfg, OnSnapshot(cfg, Exec(cfg, run, true), [], now), now)
  {
    now := cfg.WindowNs() + 2;
    var stamp;
    run, stamp := LoneRun(cfg, n - (TWO64 - 1), TWO64 - 2);
    StampComesBack(cfg, Exec(cfg, run, true), stamp, now);
  }

  /** For every configuration and every `n`, the snapshot that follows `n` others leaves
      exact stamps in every run if and only if `n` is below 2^64 - 1. */
  lemma StampsExactIff(cfg: Config, n: nat)
    ensures (forall inputs, entries, now :: Snapshots(inputs) == n ==>
               StampsExact(cfg, OnSnapshot(cfg, Exec(cfg, inputs, true), entries, now), entries, now))
      <==> n < TWO64 - 1
  {
    if n < TWO64 - 1 {
      forall inputs, entries, now | Snapshots(inputs) == n
        ensures StampsExact(cfg, OnSnapshot(cfg, Exec(cfg, inputs, true), entries, now), entries, now) {
        StampsExactUntilWrap(cfg, inputs, entries, now);
      }
    } else {
      var run, now := RunThatWraps(cfg, n);
    }
  }

  /** It leaves fresh flags in every run if and only if auto-blocking is on or `n` is
      below 2^64 - 1. */
  lemma FlagsFreshIff(cfg: Config, n: nat)
    ensures (forall inputs, entries, now :: Snapshots(inputs) == n ==>
               FlagsFresh(cfg, OnSnapshot(cfg, Exec(cfg, inputs, true), entries, now), now))
      <==> cfg.autoBlock || n < TWO64 - 1
  {
    if cfg.autoBlock || n < TWO64 - 1 {
      forall inputs, entries, now | Snapshots(inputs) == n
        ensures FlagsFresh(cfg, OnSnapshot(cfg, Exec(cfg, inputs, true), entries, now), now) {
        if cfg.autoBlock {
          BlockingKeepsFlagsFresh(cfg, inputs, entries, now);
        } else {
          StampsExactUntilWrap(cfg, inputs, entries, now);
        }
      }
    } else {
      var run, now := RunThatWraps(cfg, n);
    }
  }
}
