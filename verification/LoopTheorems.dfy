/** Properties of every run of the closed loop. */
module LoopTheorems {
  import opened Words
  import opened Packet
  import opened Xdp
  import opened Sets
  import opened Tracker
  import TrackerRuns
  import opened TrackerProgram
  import opened ControlLoop

  // ----- The tracker inside the loop -----

  /** What an action gives the tracker. */
  function InputOf(a: Action): seq<TrackerRuns.Input> {
    match a
    case Deliver(e) => [TrackerRuns.Observe(e)]
    case Tick(snapshot, now, _) => [TrackerRuns.Tick(snapshot, now)]
    case _ => []
  }

  /** What the tracker is given in a run of the loop. */
  ghost function Inputs(par: Params, acts: seq<Action>): seq<TrackerRuns.Input> {
    if acts == [] then []
    else
      var before, a := acts[..|acts| - 1], acts[|acts| - 1];
      Inputs(par, before) + (if Enabled(par, Exec(par, before), a) then InputOf(a) else [])
  }

  /** The tracker inside the loop is the tracker run on those inputs, so everything
      proved of tracker runs holds in the loop. */
  lemma {:induction false} TrackerInLoop(par: Params, acts: seq<Action>)
    ensures Exec(par, acts).tracker == TrackerRuns.Exec(par.cfg, Inputs(par, acts), true)
  {
    if acts != [] {
      var before, a := acts[..|acts| - 1], acts[|acts| - 1];
      TrackerInLoop(par, before);
      ApplyToTracker(par, Exec(par, before), a, Inputs(par, before));
      assert Inputs(par, before) + [] == Inputs(par, before);
    }
  }

  lemma ApplyToTracker(par: Params, w: World, a: Action, inputs: seq<TrackerRuns.Input>)
    requires w.tracker == TrackerRuns.Exec(par.cfg, inputs, true)
    ensures Apply(par, w, a).tracker == TrackerRuns.Exec(par.cfg, inputs + InputOf(a), true)
  {
    var more := inputs + InputOf(a);
    if InputOf(a) == [] {
      assert more == inputs;
    } else {
      assert more[..|more| - 1] == inputs;
    }
  }

  // ----- End-to-end flag soundness -----

  /** The eligible flows of one source in a snapshot, and when each began. */
  ghost function Starts(entries: seq<Entry>, ip: u32, now: u64, window: u64): map<FlowKey, int> {
    if entries == [] then map[]
    else
      var last, rest := entries[|entries| - 1], Starts(entries[..|entries| - 1], ip, now, window);
      if Counts(last, ip, now, window) then rest[last.key := last.stats.firstSeen] else rest
  }

  /** They are those of its entries. */
  lemma {:induction false} StartsAre(entries: seq<Entry>, ip: u32, now: u64, window: u64, key: FlowKey)
    ensures key in Starts(entries, ip, now, window) <==>
      exists i :: 0 <= i < |entries| && entries[i].key == key && Counts(entries[i], ip, now, window)
    ensures key in Starts(entries, ip, now, window) ==>
      exists i :: 0 <= i < |entries| && entries[i].key == key && Counts(entries[i], ip, now, window)
        && Starts(entries, ip, now, window)[key] == entries[i].stats.firstSeen
  {
    if entries != [] {
      var n := |entries| - 1;
      StartsAre(entries[..n], ip, now, window, key);
      assert forall i :: 0 <= i < n ==> entries[..n][i] == entries[i];
    }
  }

  lemma StartsOneMore(before: seq<Entry>, e: Entry, ip: u32, now: u64, window: u64)
    requires forall i :: 0 <= i < |before| ==> before[i].key != e.key
    ensures var starts := Starts(before, ip, now, window);
      && e.key !in starts
      && Starts(before + [e], ip, now, window)
         == if Counts(e, ip, now, window) then starts[e.key := e.stats.firstSeen] else starts
  {
    var entries := before + [e];
    assert entries[..|entries| - 1] == before;
    StartsAre(before, ip, now, window, e.key);
  }

  /** The SYNs a snapshot attributes to a source were let through, each counted once,
      since its flow began. */
  lemma {:induction false} SnapshotSynsPassed(w: World, entries: seq<Entry>, ip: u32, now: u64, window: u64)
    requires forall key :: Accounted(w, key)
    requires Samples(entries, w.kernel.flows)
    ensures SynTotal(entries, ip, now, window) <= Marks(w.passed, Starts(entries, ip, now, window), SynMark)
    decreases |entries|
  {
    if entries != [] {
      var before, e := entries[..|entries| - 1], entries[|entries| - 1];
      assert entries == before + [e];
      SnapshotSynsPassed(w, before, ip, now, window);
      StartsOneMore(before, e, ip, now, window);
      if Counts(e, ip, now, window) {
        MarksUnion(w.passed, Starts(before, ip, now, window), e.key, e.stats.firstSeen, SynMark);
        assert Accounted(w, e.key);
      }
    }
  }

  /** An eligible flow of the source began no longer than a window ago. */
  lemma StartsWithinWindow(entries: seq<Entry>, ip: u32, now: u64, window: u64, key: FlowKey)
    requires key in Starts(entries, ip, now, window)
    requires forall i :: 0 <= i < |entries| ==> entries[i].stats.firstSeen >= 1
    ensures key.src == ip && Starts(entries, ip, now, window)[key] >= now - window
  {
    StartsAre(entries, ip, now, window, key);
  }

  lemma SnapshotSynsFrom(w: World, entries: seq<Entry>, ip: u32, now: u64, window: u64)
    requires (forall key :: Accounted(w, key)) && Samples(entries, w.kernel.flows)
    ensures SynTotal(entries, ip, now, window) <= SynsFrom(w.passed, ip, now - window)
  {
    SnapshotSynsPassed(w, entries, ip, now, window);
    forall i | 0 <= i < |entries| ensures entries[i].stats.firstSeen >= 1 {
      assert Accounted(w, entries[i].key);
    }
    forall key | key in Starts(entries, ip, now, window)
      ensures key.src == ip && Starts(entries, ip, now, window)[key] >= now - window {
      StartsWithinWindow(entries, ip, now, window, key);
    }
    MarksOfSource(w.passed, Starts(entries, ip, now, window), ip, now - window);
  }

  lemma FlagNeedsSyns(cfg: Config, t: State, entries: seq<Entry>, now: u64, ip: u32)
    requires !Flagged(t, ip) && Flagged(OnSnapshot(cfg, t, entries, now), ip)
    ensures SynTotal(entries, ip, now, cfg.WindowNs()) >= cfg.threshold
  {
    TrackerRuns.SnapshotAt(cfg, t, entries, now, ip);
    Wrap32Lowers(SynTotal(entries, ip, now, cfg.WindowNs()));
  }

  lemma NewFlagIsEarned(cfg: Config, w: World, entries: seq<Entry>, now: u64, ip: u32)
    requires (forall key :: Accounted(w, key)) && Samples(entries, w.kernel.flows)
    requires !Flagged(w.tracker, ip) && Flagged(OnSnapshot(cfg, w.tracker, entries, now), ip)
    ensures SynsFrom(w.passed, ip, now - cfg.WindowNs()) >= cfg.threshold
  {
    FlagNeedsSyns(cfg, w.tracker, entries, now, ip);
    SnapshotSynsFrom(w, entries, ip, now, cfg.WindowNs());
  }

  /** In every run, when a snapshot newly flags a source, XDP really let through at
      least the threshold of SYN packets from it within the window. Wrapping counters
      and evicted flows can only lower the count. The flow table may be read later than
      the clock, and only in part. */
  lemma FlagSoundness(par: Params, acts: seq<Action>, entries: seq<Entry>, now: u64, ip: u32)
    requires Samples(entries, Exec(par, acts).kernel.flows)
    requires !Flagged(Exec(par, acts).tracker, ip)
    requires Flagged(OnSnapshot(par.cfg, Exec(par, acts).tracker, entries, now), ip)
    ensures SynsFrom(Exec(par, acts).passed, ip, now - par.cfg.windowS * 1_000_000_000) >= par.cfg.threshold
  {
    AlwaysInv(par, acts);
    NewFlagIsEarned(par.cfg, Exec(par, acts), entries, now, ip);
  }

  /** Every block a run issues is earned the same way, in the tick that issues it. */
  lemma EveryBlockIsEarned(par: Params, acts: seq<Action>, snapshot: Snapshot, now: u64, writes: Writes, ip: u32)
    requires Enabled(par, Exec(par, acts), Tick(snapshot, now, writes))
    requires ip in TickBlocks(par.cfg, Exec(par, acts).tracker, snapshot, now)
    ensures SynsFrom(Exec(par, acts).passed, ip, now - par.cfg.windowS * 1_000_000_000) >= par.cfg.threshold
  {
    var w := Exec(par, acts);
    AlwaysInv(par, acts);
    TickOnSource(par, w, snapshot, now, writes, ip);
    assert Flagged(w.tracker, ip) && par.cfg.autoBlock ==> Blocked(w.tracker, ip);
    FlagSoundness(par, acts, snapshot.entries, now, ip);
  }

  // ----- Agreement of tracker and blacklist -----

  /** The host entries are exactly the blocked sources. */
  ghost predicate Agrees(w: World) {
    forall ip :: Prefix(32, ip) in w.kernel.blacklist <==> Blocked(w.tracker, ip)
  }

  /** There are slots and memory for all blocks of a tick, or they expire at once. */
  ghost predicate Room(par: Params, w: World, snapshot: Snapshot, now: u64, writes: Writes) {
    var blocks := TickBlocks(par.cfg, w.tracker, snapshot, now);
    par.cfg.ttlS == 0
    || (|w.kernel.blacklist| + |blocks| <= 1024 && blocks !! writes.refused)
  }

  /** The new entries find slots and memory. */
  ghost predicate Fits(blacklist: set<Prefix>, writes: Writes) {
    && |blacklist| + |writes.order| <= 1024
    && forall ip :: ip in writes.order ==> ip !in writes.refused
  }

  lemma {:induction false} AddHostsWithRoom(blacklist: set<Prefix>, ips: seq<u32>, refused: set<u32>)
    requires |blacklist| + |ips| <= 1024
    requires forall ip :: ip in ips ==> ip !in refused
    ensures AddHosts(blacklist, ips, refused) == blacklist + Hosts(ips)
    ensures |AddHosts(blacklist, ips, refused)| <= |blacklist| + |ips|
  {
    if ips != [] {
      var before, ip := ips[..|ips| - 1], ips[|ips| - 1];
      AddHostsWithRoom(blacklist, before, refused);
      assert ips == before + [ip];
    }
  }

  lemma {:induction false} ListsSize(v: seq<u32>, s: set<u32>)
    requires Lists(v, s)
    ensures |v| == |s|
  {
    if v == [] {
      assert s == {};
    } else {
      var before, last := v[..|v| - 1], v[|v| - 1];
      assert forall i :: 0 <= i < |before| ==> v[i] == before[i];
      assert forall ip :: ip in before ==> ip in v;
      assert forall ip :: ip in v ==> ip in before || ip == last;
      assert last !in before;
      ListsSize(before, s - {last});
    }
  }

  lemma {:induction false} HostsSize(ips: seq<u32>)
    requires forall i, j :: 0 <= i < j < |ips| ==> ips[i] != ips[j]
    ensures |Hosts(ips)| == |ips|
  {
    if ips != [] {
      var before, last := ips[..|ips| - 1], ips[|ips| - 1];
      HostsSize(before);
      assert ips == before + [last];
      assert last !in before;
      assert Hosts(ips) == Hosts(before) + {Prefix(32, last)};
      assert Prefix(32, last) !in Hosts(before);
    }
  }

  /** A block started before 2^63 expires exactly when its time-to-live is over: for
      any 32-bit number of seconds the deadline does not wrap around. */
  lemma DeadlineDoesNotWrap(cfg: Config, start: u64, now: u64, s: IpStats)
    requires start < TWO63
    requires s.blockStart == start && s.blocked
    ensures Expired(cfg, s, now) <==> now >= start + cfg.ttlS * 1_000_000_000
  {
  }

  /** Given agreement, a tick keeps it if and only if there is room. */
  lemma TickKeepsAgreementIff(par: Params, w: World, snapshot: Snapshot, now: u64, writes: Writes)
    requires Inv(par, w) && Enabled(par, w, Tick(snapshot, now, writes)) && Agrees(w)
    ensures Agrees(OnTickAction(par, w, snapshot, now, writes)) <==> Room(par, w, snapshot, now, writes)
  {
    ListsSize(writes.order, TickBlocks(par.cfg, w.tracker, snapshot, now));
    if Room(par, w, snapshot, now, writes) {
      RoomKeepsAgreement(par, w, snapshot, now, writes);
    } else {
      NoRoomBreaksAgreement(par, w, snapshot, now, writes);
    }
  }

  lemma RoomKeepsAgreement(par: Params, w: World, snapshot: Snapshot, now: u64, writes: Writes)
    requires Inv(par, w) && Enabled(par, w, Tick(snapshot, now, writes)) && Agrees(w)
    requires par.cfg.ttlS == 0 || Fits(w.kernel.blacklist, writes)
    ensures Agrees(OnTickAction(par, w, snapshot, now, writes))
  {
    if par.cfg.ttlS > 0 {
      AddHostsWithRoom(w.kernel.blacklist, writes.order, writes.refused);
    }
    var after := OnTickAction(par, w, snapshot, now, writes);
    forall ip ensures Prefix(32, ip) in after.kernel.blacklist <==> Blocked(after.tracker, ip) {
      SourceAgrees(par, w, snapshot, now, writes, ip);
    }
  }

  lemma NoRoomBreaksAgreement(par: Params, w: World, snapshot: Snapshot, now: u64, writes: Writes)
    requires Inv(par, w) && Enabled(par, w, Tick(snapshot, now, writes)) && Agrees(w)
    requires par.cfg.ttlS > 0
    requires !Fits(w.kernel.blacklist, writes)
    ensures !Agrees(OnTickAction(par, w, snapshot, now, writes))
  {
    var ip := RefusedBlock(par, w, snapshot, now, writes);
    TickOnSource(par, w, snapshot, now, writes, ip);
    var s1 := Get(AfterSnapshot(par.cfg, w.tracker, snapshot, now).stats, ip);
    DeadlineDoesNotWrap(par.cfg, now, now, Block(par.cfg, s1, now));
    var after := OnTickAction(par, w, snapshot, now, writes);
    assert Blocked(after.tracker, ip) && Prefix(32, ip) !in after.kernel.blacklist;
  }

  lemma SourceAgrees(par: Params, w: World, snapshot: Snapshot, now: u64, writes: Writes, ip: u32)
    requires Inv(par, w) && Enabled(par, w, Tick(snapshot, now, writes)) && Agrees(w)
    requires par.cfg.ttlS == 0 || (ip in writes.order ==> Prefix(32, ip) in Written(w.kernel.blacklist, writes))
    ensures var after := OnTickAction(par, w, snapshot, now, writes);
      Prefix(32, ip) in after.kernel.blacklist <==> Blocked(after.tracker, ip)
  {
    TickOnSource(par, w, snapshot, now, writes, ip);
    assert Prefix(32, ip) in w.kernel.blacklist <==> Blocked(w.tracker, ip);
    if ip in writes.order {
      var s1 := Get(AfterSnapshot(par.cfg, w.tracker, snapshot, now).stats, ip);
      DeadlineDoesNotWrap(par.cfg, now, now, Block(par.cfg, s1, now));
    }
  }

  /** When slots or memory do not suffice for the new entries, one is refused. */
  lemma RefusedEntry(blacklist: set<Prefix>, writes: Writes) returns (ip: u32)
    requires |blacklist| <= MAX_BLACKLIST && Hosts(writes.order) !! blacklist
    requires forall i, j :: 0 <= i < j < |writes.order| ==> writes.order[i] != writes.order[j]
    requires !Fits(blacklist, writes)
    ensures ip in writes.order && Prefix(32, ip) !in Written(blacklist, writes)
  {
    var wanted := Hosts(writes.order);
    AddHostsBounds(blacklist, writes.order, writes.refused);
    if |blacklist| + |writes.order| > 1024 {
      HostsSize(writes.order);
      assert |blacklist + wanted| == |blacklist| + |wanted|;
      assert Written(blacklist, writes) != blacklist + wanted;
      var p :| p in wanted && p !in Written(blacklist, writes);
      ip := p.data;
    } else {
      ip :| ip in writes.order && ip in writes.refused;
      assert Prefix(32, ip) in wanted;
    }
  }

  /** A block of a tick that finds no room is refused. */
  lemma RefusedBlock(par: Params, w: World, snapshot: Snapshot, now: u64, writes: Writes) returns (ip: u32)
    requires Inv(par, w) && Enabled(par, w, Tick(snapshot, now, writes)) && Agrees(w)
    requires !Fits(w.kernel.blacklist, writes)
    ensures ip in writes.order && Prefix(32, ip) !in Written(w.kernel.blacklist, writes)
  {
    forall p | p in Hosts(writes.order) ensures p !in w.kernel.blacklist {
      TickOnSource(par, w, snapshot, now, writes, p.data);
      assert Prefix(32, p.data) in w.kernel.blacklist <==> Blocked(w.tracker, p.data);
    }
    ip := RefusedEntry(w.kernel.blacklist, writes);
  }

  /** Every tick of the run finds room. */
  ghost predicate AlwaysRoom(par: Params, acts: seq<Action>) {
    forall i :: 0 <= i < |acts| && acts[i].Tick? ==>
      Room(par, Exec(par, acts[..i]), acts[i].snapshot, acts[i].now, acts[i].writes)
  }

  lemma OtherKeepsAgreement(par: Params, w: World, a: Action)
    requires Enabled(par, w, a) && Agrees(w) && !a.Tick?
    ensures Agrees(Apply(par, w, a))
  {
    var after := Apply(par, w, a);
    forall ip ensures Prefix(32, ip) in after.kernel.blacklist <==> Blocked(after.tracker, ip) {
      assert Prefix(32, ip) in w.kernel.blacklist <==> Blocked(w.tracker, ip);
      match a
      case Rx(p, env) => RxFrame(par, w, p, env, FlowKey(0, 0, 0, 0, 0));
      case Deliver(e) => TrackerRuns.EventAt(w.tracker, e, ip);
      case _ =>
    }
  }

  /** After every step of a run with room, the host entries are exactly the blocked
      sources, for any time-to-live including zero. */
  lemma {:induction false} AlwaysAgrees(par: Params, acts: seq<Action>)
    requires AlwaysRoom(par, acts)
    ensures Agrees(Exec(par, acts))
  {
    if acts != [] {
      var n := |acts| - 1;
      var before, a := acts[..n], acts[n];
      forall i | 0 <= i < n && before[i].Tick?
        ensures Room(par, Exec(par, before[..i]), before[i].snapshot, before[i].now, before[i].writes) {
        assert before[..i] == acts[..i];
      }
      AlwaysAgrees(par, before);
      var w := Exec(par, before);
      if Enabled(par, w, a) {
        if a.Tick? {
          AlwaysInv(par, before);
          TickKeepsAgreementIff(par, w, a.snapshot, a.now, a.writes);
        } else {
          OtherKeepsAgreement(par, w, a);
        }
      }
    }
  }

  // ----- Quarantine -----

  /** `ip` is blocked since `start`, and the blacklist holds it. */
  ghost predicate Quarantined(w: World, ip: u32, start: u64) {
    && Blocked(w.tracker, ip)
    && Get(w.tracker.stats, ip).blockStart == start
    && Prefix(32, ip) in w.kernel.blacklist
  }

  ghost function FlowsOf(w: World, ip: u32): map<FlowKey, FlowStats> {
    map k | k in w.kernel.flows && k.src == ip :: w.kernel.flows[k]
  }

  /** Flows may have been evicted, but none was created or updated. */
  ghost predicate Frozen(later: map<FlowKey, FlowStats>, earlier: map<FlowKey, FlowStats>) {
    forall k :: k in later ==> k in earlier && later[k] == earlier[k]
  }

  /** Every IPv4 packet of a quarantined source is dropped and leaves the flow table
      alone. */
  lemma QuarantineDrops(par: Params, w: World, ip: u32, start: u64, p: Bytes, env: Env)
    requires Quarantined(w, ip, start)
    requires Parse(p).Ipv4? && Parse(p).src == ip
    ensures VerdictOf(w.kernel, p) == Drop
    ensures OnRx(par, w, p, env).kernel.flows == w.kernel.flows
  {
    ListedHost(w.kernel.blacklist, ip);
  }

  lemma QuarantineStep(par: Params, w: World, a: Action, ip: u32, start: u64)
    requires Inv(par, w) && Enabled(par, w, a) && Quarantined(w, ip, start) && start < TWO63
    requires a.Tick? ==> a.now < start + par.cfg.ttlS * 1_000_000_000
    ensures Quarantined(Apply(par, w, a), ip, start)
    ensures Frozen(FlowsOf(Apply(par, w, a), ip), FlowsOf(w, ip))
  {
    match a
    case Rx(p, env) =>
      forall k | k in FlowsOf(OnRx(par, w, p, env), ip)
        ensures k in FlowsOf(w, ip) && FlowsOf(OnRx(par, w, p, env), ip)[k] == FlowsOf(w, ip)[k] {
        RxFrame(par, w, p, env, k);
      }
      RxFrame(par, w, p, env, FlowKey(ip, 0, 0, 0, 0));
    case LruEvict(_) =>
    case Deliver(e) => TrackerRuns.EventAt(w.tracker, e, ip);
    case Operator(_) =>
    case Tick(snapshot, now, writes) =>
      TickOnSource(par, w, snapshot, now, writes, ip);
      var s1 := Get(AfterSnapshot(par.cfg, w.tracker, snapshot, now).stats, ip);
      DeadlineDoesNotWrap(par.cfg, start, now, Block(par.cfg, s1, now));
  }

  /** The tick at position `i` blocks `ip` and the blacklist takes the entry. */
  ghost predicate BlockedAt(par: Params, acts: seq<Action>, i: nat, ip: u32) {
    && i < |acts| && acts[i].Tick?
    && Enabled(par, Exec(par, acts[..i]), acts[i])
    && ip in TickBlocks(par.cfg, Exec(par, acts[..i]).tracker, acts[i].snapshot, acts[i].now)
    && Prefix(32, ip) in Exec(par, acts[..i + 1]).kernel.blacklist
  }

  lemma ExecStep(par: Params, acts: seq<Action>, i: nat)
    requires i < |acts|
    ensures var w := Exec(par, acts[..i]);
      Exec(par, acts[..i + 1]) == if Enabled(par, w, acts[i]) then Apply(par, w, acts[i]) else w
  {
    assert acts[..i + 1][..i] == acts[..i];
  }

  lemma QuarantineBegins(par: Params, acts: seq<Action>, i: nat, ip: u32)
    requires BlockedAt(par, acts, i, ip)
    ensures Quarantined(Exec(par, acts[..i + 1]), ip, acts[i].now)
    ensures Frozen(FlowsOf(Exec(par, acts[..i + 1]), ip), FlowsOf(Exec(par, acts[..i]), ip))
  {
    ExecStep(par, acts, i);
    AlwaysInv(par, acts[..i]);
    TickOnSource(par, Exec(par, acts[..i]), acts[i].snapshot, acts[i].now, acts[i].writes, ip);
  }

  lemma QuarantineOver(par: Params, acts: seq<Action>, n: nat, ip: u32, start: u64)
    requires n < |acts| && Quarantined(Exec(par, acts[..n]), ip, start) && start < TWO63
    requires Enabled(par, Exec(par, acts[..n]), acts[n]) && acts[n].Tick? ==>
      acts[n].now < start + par.cfg.ttlS * 1_000_000_000
    ensures Quarantined(Exec(par, acts[..n + 1]), ip, start)
    ensures Frozen(FlowsOf(Exec(par, acts[..n + 1]), ip), FlowsOf(Exec(par, acts[..n]), ip))
  {
    ExecStep(par, acts, n);
    AlwaysInv(par, acts[..n]);
    if Enabled(par, Exec(par, acts[..n]), acts[n]) {
      QuarantineStep(par, Exec(par, acts[..n]), acts[n], ip, start);
    }
  }

  /** Every tick between positions `i` and `m` comes before the deadline of a block issued
      at `i`. */
  ghost predicate NotDueYet(par: Params, acts: seq<Action>, i: nat, m: nat)
    requires i < m <= |acts| && acts[i].Tick?
  {
    forall n :: i < n < m && acts[n].Tick? && Enabled(par, Exec(par, acts[..n]), acts[n]) ==>
      acts[n].now < acts[i].now + par.cfg.ttlS * 1_000_000_000
  }

  /** From the tick that blocks a source until a tick at or after its deadline, the
      source stays blocked and listed, and none of its flows is created or updated. */
  lemma {:induction false} QuarantineInterval(par: Params, acts: seq<Action>, i: nat, m: nat, ip: u32)
    requires BlockedAt(par, acts, i, ip) && i < m <= |acts|
    requires NotDueYet(par, acts, i, m)
    ensures Quarantined(Exec(par, acts[..m]), ip, acts[i].now)
    ensures Frozen(FlowsOf(Exec(par, acts[..m]), ip), FlowsOf(Exec(par, acts[..i]), ip))
    decreases m
  {
    if m == i + 1 {
      QuarantineBegins(par, acts, i, ip);
    } else {
      QuarantineInterval(par, acts, i, m - 1, ip);
      QuarantineOver(par, acts, m - 1, ip, acts[i].now);
      FrozenChain(FlowsOf(Exec(par, acts[..m]), ip), FlowsOf(Exec(par, acts[..m - 1]), ip),
                  FlowsOf(Exec(par, acts[..i]), ip));
    }
  }

  lemma FrozenChain(a: map<FlowKey, FlowStats>, b: map<FlowKey, FlowStats>, c: map<FlowKey, FlowStats>)
    requires Frozen(a, b) && Frozen(b, c)
    ensures Frozen(a, c)
  {
  }

  /** A tick unblocks a quarantined source if and only if its deadline has come; it
      then clears both the status and the blacklist entry. */
  lemma QuarantineEnds(par: Params, w: World, snapshot: Snapshot, now: u64, writes: Writes, ip: u32, start: u64)
    requires Inv(par, w) && Enabled(par, w, Tick(snapshot, now, writes))
    requires Quarantined(w, ip, start) && start < TWO63
    ensures var after := OnTickAction(par, w, snapshot, now, writes);
      var due := now >= start + par.cfg.ttlS * 1_000_000_000;
      && (ip in TickUnblocks(par.cfg, w.tracker, snapshot, now, true) <==> due)
      && (Blocked(after.tracker, ip) <==> !due)
      && (Prefix(32, ip) in after.kernel.blacklist <==> !due)
  {
    TickOnSource(par, w, snapshot, now, writes, ip);
    var s1 := Get(AfterSnapshot(par.cfg, w.tracker, snapshot, now).stats, ip);
    DeadlineDoesNotWrap(par.cfg, start, now, Block(par.cfg, s1, now));
  }

  // ----- No re-block without fresh traffic -----

  /** `ip` is not flagged, and none of its flows has a packet within the window. */
  ghost predicate Quiet(par: Params, w: World, ip: u32) {
    && !Flagged(w.tracker, ip)
    && forall k :: k in w.kernel.flows && k.src == ip ==>
         w.kernel.flows[k].lastSeen + par.cfg.WindowNs() < w.clock
  }

  /** The action lets a packet of `ip` through. */
  ghost predicate Freshens(w: World, a: Action, ip: u32) {
    a.Rx? && LetThrough(w, a.p) && Parse(a.p).src == ip
  }

  lemma QuietTick(par: Params, w: World, snapshot: Snapshot, now: u64, writes: Writes, ip: u32)
    requires Inv(par, w) && Enabled(par, w, Tick(snapshot, now, writes)) && Quiet(par, w, ip)
    ensures Quiet(par, OnTickAction(par, w, snapshot, now, writes), ip)
    ensures !Flagged(AfterSnapshot(par.cfg, w.tracker, snapshot, now), ip)
  {
    assert Blocked(w.tracker, ip) ==> Flagged(w.tracker, ip) && par.cfg.autoBlock;
    if snapshot.Taken? {
      TrackerRuns.SnapshotAt(par.cfg, w.tracker, snapshot.entries, now, ip);
      assert ip !in Sources(snapshot.entries, now, par.cfg.WindowNs());
    }
    TrackerRuns.TickAt(par.cfg, w.tracker, snapshot, now, true, ip);
  }

  lemma QuietStep(par: Params, w: World, a: Action, ip: u32)
    requires Inv(par, w) && Enabled(par, w, a) && Quiet(par, w, ip) && !Freshens(w, a, ip)
    ensures Quiet(par, Apply(par, w, a), ip)
  {
    match a
    case Rx(p, env) =>
      forall k | k in OnRx(par, w, p, env).kernel.flows && k.src == ip
        ensures k in w.kernel.flows && OnRx(par, w, p, env).kernel.flows[k] == w.kernel.flows[k] {
        RxFrame(par, w, p, env, k);
      }
    case LruEvict(_) =>
    case Deliver(e) => TrackerRuns.EventAt(w.tracker, e, ip);
    case Operator(_) =>
    case Tick(snapshot, now, writes) => QuietTick(par, w, snapshot, now, writes, ip);
  }

  /** The tick at position `j` unblocks `ip`. */
  ghost predicate UnblockedAt(par: Params, acts: seq<Action>, j: nat, ip: u32) {
    && j < |acts| && acts[j].Tick?
    && Enabled(par, Exec(par, acts[..j]), acts[j])
    && ip in TickUnblocks(par.cfg, Exec(par, acts[..j]).tracker, acts[j].snapshot, acts[j].now, true)
  }

  /** The blacklist holds `ip` if it is blocked. */
  ghost predicate BlockHolds(w: World, ip: u32) {
    Blocked(w.tracker, ip) ==> Prefix(32, ip) in w.kernel.blacklist
  }

  /** No packet of `ip` is let through between positions `j` and `m`. */
  ghost predicate NoFreshTraffic(par: Params, acts: seq<Action>, j: nat, m: nat, ip: u32)
    requires m <= |acts|
  {
    forall n :: j < n < m ==> !Freshens(Exec(par, acts[..n]), acts[n], ip)
  }

  /** A block that outlasts the window leaves the source quiet when it expires: its
      flows were frozen when it was blocked. */
  lemma UnblockLeavesQuiet(par: Params, w: World, snapshot: Snapshot, now: u64, writes: Writes, ip: u32)
    requires par.cfg.ttlS > par.cfg.windowS
    requires Inv(par, w) && Enabled(par, w, Tick(snapshot, now, writes)) && BlockHolds(w, ip)
    requires ip in TickUnblocks(par.cfg, w.tracker, snapshot, now, true)
    ensures Quiet(par, OnTickAction(par, w, snapshot, now, writes), ip)
  {
    TickOnSource(par, w, snapshot, now, writes, ip);
    TrackerRuns.StepKeepsFlags(par.cfg, w.tracker, TrackerRuns.Tick(snapshot, now));
    var s1 := Get(AfterSnapshot(par.cfg, w.tracker, snapshot, now).stats, ip);
    var s2 := Block(par.cfg, s1, now);
    DeadlineDoesNotWrap(par.cfg, s2.blockStart, now, s2);
    assert HostHeld(w, ip);
    var after := OnTickAction(par, w, snapshot, now, writes);
    assert Flagged(after.tracker, ip) && par.cfg.autoBlock ==> Blocked(after.tracker, ip);
    assert Blocked(w.tracker, ip) ==> Flagged(w.tracker, ip) && par.cfg.autoBlock;
  }

  lemma UnblockedIsQuiet(par: Params, acts: seq<Action>, j: nat, ip: u32)
    requires par.cfg.ttlS > par.cfg.windowS
    requires UnblockedAt(par, acts, j, ip) && BlockHolds(Exec(par, acts[..j]), ip)
    ensures Quiet(par, Exec(par, acts[..j + 1]), ip)
  {
    AlwaysInv(par, acts[..j]);
    ExecStep(par, acts, j);
    UnblockLeavesQuiet(par, Exec(par, acts[..j]), acts[j].snapshot, acts[j].now, acts[j].writes, ip);
  }

  lemma {:induction false} StaysQuiet(par: Params, acts: seq<Action>, j: nat, m: nat, ip: u32)
    requires j < m <= |acts| && NoFreshTraffic(par, acts, j, m, ip)
    requires Quiet(par, Exec(par, acts[..j + 1]), ip)
    ensures Quiet(par, Exec(par, acts[..m]), ip)
    decreases m - j
  {
    if j + 1 < m {
      QuietOver(par, acts, j + 1, ip);
      StaysQuiet(par, acts, j + 1, m, ip);
    }
  }

  lemma QuietOver(par: Params, acts: seq<Action>, n: nat, ip: u32)
    requires n < |acts| && Quiet(par, Exec(par, acts[..n]), ip)
    requires !Freshens(Exec(par, acts[..n]), acts[n], ip)
    ensures Quiet(par, Exec(par, acts[..n + 1]), ip)
  {
    ExecStep(par, acts, n);
    AlwaysInv(par, acts[..n]);
    if Enabled(par, Exec(par, acts[..n]), acts[n]) {
      QuietStep(par, Exec(par, acts[..n]), acts[n], ip);
    }
  }

  /** If the time-to-live exceeds the window, a source whose block was in the blacklist
      and has expired is neither flagged nor blocked until XDP lets a new packet from it
      through, whatever became of the blocks of other sources. */
  lemma NoReblockWithoutTraffic(par: Params, acts: seq<Action>, j: nat, m: nat, ip: u32)
    requires par.cfg.ttlS > par.cfg.windowS
    requires UnblockedAt(par, acts, j, ip) && BlockHolds(Exec(par, acts[..j]), ip) && j < m <= |acts|
    requires NoFreshTraffic(par, acts, j, m, ip)
    ensures var t := Exec(par, acts[..m]).tracker; !Flagged(t, ip) && !Blocked(t, ip)
    ensures m < |acts| && acts[m].Tick? && Enabled(par, Exec(par, acts[..m]), acts[m]) ==>
      ip !in TickBlocks(par.cfg, Exec(par, acts[..m]).tracker, acts[m].snapshot, acts[m].now)
  {
    UnblockedIsQuiet(par, acts, j, ip);
    StaysQuiet(par, acts, j, m, ip);
    AlwaysInv(par, acts[..m]);
    var w := Exec(par, acts[..m]);
    assert Blocked(w.tracker, ip) ==> Flagged(w.tracker, ip) && par.cfg.autoBlock;
    if m < |acts| && acts[m].Tick? && Enabled(par, w, acts[m]) {
      QuietTick(par, w, acts[m].snapshot, acts[m].now, acts[m].writes, ip);
      TickOnSource(par, w, acts[m].snapshot, acts[m].now, acts[m].writes, ip);
    }
  }

  /** That the block was in the blacklist is settled when it is issued: if the blacklist
      takes the entry then, the first tick at or after the deadline ends the block, and
      it does not come back without a new packet. */
  lemma TakenBlockEndsForGood(par: Params, acts: seq<Action>, i: nat, j: nat, m: nat, ip: u32)
    requires par.cfg.ttlS > par.cfg.windowS
    requires BlockedAt(par, acts, i, ip) && i < j < m <= |acts| && NotDueYet(par, acts, i, j)
    requires acts[j].Tick? && Enabled(par, Exec(par, acts[..j]), acts[j])
    requires acts[j].now >= acts[i].now + par.cfg.ttlS * 1_000_000_000
    requires NoFreshTraffic(par, acts, j, m, ip)
    ensures UnblockedAt(par, acts, j, ip)
    ensures var t := Exec(par, acts[..m]).tracker; !Flagged(t, ip) && !Blocked(t, ip)
    ensures m < |acts| && acts[m].Tick? && Enabled(par, Exec(par, acts[..m]), acts[m]) ==>
      ip !in TickBlocks(par.cfg, Exec(par, acts[..m]).tracker, acts[m].snapshot, acts[m].now)
  {
    QuarantineInterval(par, acts, i, j, ip);
    AlwaysInv(par, acts[..j]);
    QuarantineEnds(par, Exec(par, acts[..j]), acts[j].snapshot, acts[j].now, acts[j].writes, ip, acts[i].now);
    NoReblockWithoutTraffic(par, acts, j, m, ip);
  }
}
