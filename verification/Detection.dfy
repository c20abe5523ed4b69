/** Detection end to end: what the flow table knows of the packets XDP let through, and
    which histories of packets make the tracker flag and block a source. */
module Detection {
  import opened Words
  import opened Packet
  import opened Xdp
  import opened Tracker
  import TrackerRuns
  import opened TrackerProgram
  import opened ControlLoop
  import opened LoopTheorems

  function Figure(f: FlowStats, m: Mark): u32 {
    if m.SynMark? then f.syn else f.ack
  }

  function Total(entries: seq<Entry>, ip: u32, now: u64, window: u64, m: Mark): nat {
    if m.SynMark? then SynTotal(entries, ip, now, window) else AckTotal(entries, ip, now, window)
  }

  lemma {:induction false} NoneSince(passed: seq<Passed>, key: FlowKey, since: int, m: Mark)
    requires forall i :: 0 <= i < |passed| && passed[i].key == key ==> passed[i].time < since
    ensures MarksSince(passed, key, since, m) == 0
  {
    if passed != [] {
      NoneSince(passed[..|passed| - 1], key, since, m);
    }
  }

  // ----- Exact accounts -----

  /** A flow entry never covers more than one window, because a packet beyond it starts
      the entry over. */
  ghost predicate WithinWindow(par: Params, w: World, key: FlowKey) {
    key in w.kernel.flows && par.cfg.WindowNs() > 0 ==>
      w.kernel.flows[key].lastSeen - w.kernel.flows[key].firstSeen <= par.cfg.windowS * 1_000_000_000
  }

  /** No packet let through is later than the clock, and none of a flow in the table later
      than the entry says. */
  ghost predicate InOrder(w: World, key: FlowKey) {
    && (forall i :: 0 <= i < |w.passed| ==> w.passed[i].time <= w.clock)
    && (key in w.kernel.flows ==>
          && w.kernel.flows[key].firstSeen <= w.kernel.flows[key].lastSeen <= w.clock
          && forall i :: 0 <= i < |w.passed| && w.passed[i].key == key ==>
               w.passed[i].time <= w.kernel.flows[key].lastSeen)
  }

  lemma RxKeepsOrder(par: Params, w: World, p: Bytes, env: Env, key: FlowKey)
    requires WithinWindow(par, w, key) && InOrder(w, key) && ClockReads(w, env.now)
    ensures WithinWindow(par, OnRx(par, w, p, env), key) && InOrder(OnRx(par, w, p, env), key)
  {
    RxFrame(par, w, p, env, key);
    if LetThrough(w, p) {
      var flags := TcpFlags(Parse(p).proto, Parse(p).l4);
      assert OnRx(par, w, p, env).kernel.flows
        == TrackFlow(par.KernelSetup(), w.kernel.flows, KeyOf(Parse(p)), flags, env);
    }
  }

  lemma {:induction false} AlwaysInOrder(par: Params, acts: seq<Action>, key: FlowKey)
    ensures WithinWindow(par, Exec(par, acts), key) && InOrder(Exec(par, acts), key)
  {
    if acts != [] {
      var before, a := acts[..|acts| - 1], acts[|acts| - 1];
      AlwaysInOrder(par, before, key);
      if a.Rx? && Enabled(par, Exec(par, before), a) {
        RxKeepsOrder(par, Exec(par, before), a.p, a.env, key);
      }
    }
  }

  /** An entry's SYN and ACK counts are exactly, in 32 bits, the packets let through in
      its flow since its first one. */
  ghost predicate Exact(w: World, key: FlowKey) {
    key in w.kernel.flows ==>
      forall m :: Figure(w.kernel.flows[key], m)
        == Wrap32(MarksSince(w.passed, key, w.kernel.flows[key].firstSeen, m))
  }

  /** The action lets a packet of the flow through. */
  ghost predicate Feeds(w: World, a: Action, key: FlowKey) {
    a.Rx? && LetThrough(w, a.p) && KeyOf(Parse(a.p)) == key
  }

  /** If the action makes an entry for the flow, no SYN and no ACK of the flow was let
      through at the same instant before (up to the 32 bits of a counter). */
  ghost predicate CleanStart(w: World, a: Action, key: FlowKey) {
    Feeds(w, a, key) && key !in w.kernel.flows && a.env.insertOk ==>
      forall m :: Wrap32(MarksSince(w.passed, key, a.env.now, m)) == 0
  }

  /** One more packet in 32 bits. */
  lemma OneMoreExact(passed: seq<Passed>, p: Passed, since: int, figure: u32, m: Mark)
    requires p.time >= since
    ensures Add32(figure, One(Bears(p, m))) == Wrap32(MarksSince(passed + [p], p.key, since, m))
      <==> figure == Wrap32(MarksSince(passed, p.key, since, m))
  {
    MarksOneMore(passed, p, p.key, since, m);
    Add32OfWrap(MarksSince(passed, p.key, since, m), One(Bears(p, m)));
  }

  /** A packet counted in an entry that may start over. */
  lemma TouchExact(par: Params, w: World, p: Passed, flags: u8, m: Mark)
    requires p.key in w.kernel.flows && WithinWindow(par, w, p.key) && InOrder(w, p.key)
    requires Figure(w.kernel.flows[p.key], m) == Wrap32(MarksSince(w.passed, p.key, w.kernel.flows[p.key].firstSeen, m))
    requires w.clock <= p.time && p.syn == Syn(flags) && p.ack == Ack(flags)
    ensures var f := Touch(w.kernel.flows[p.key], flags, p.time, par.cfg.WindowNs());
      Figure(f, m) == Wrap32(MarksSince(w.passed + [p], p.key, f.firstSeen, m))
  {
    var was := w.kernel.flows[p.key];
    var f := Touch(was, flags, p.time, par.cfg.WindowNs());
    if f.firstSeen == was.firstSeen {
      OneMoreExact(w.passed, p, was.firstSeen, Figure(was, m), m);
    } else {
      NoneSince(w.passed, p.key, p.time, m);
      OneMoreExact(w.passed, p, p.time, 0, m);
    }
  }

  lemma FedEntry(par: Params, w: World, p: Bytes, env: Env)
    requires LetThrough(w, p)
    ensures var after := OnRx(par, w, p, env);
      && after.passed == w.passed + [RecordOf(Parse(p), env.now)]
      && after.kernel.flows == TrackFlow(par.KernelSetup(), w.kernel.flows, KeyOf(Parse(p)),
                                         TcpFlags(Parse(p).proto, Parse(p).l4), env)
  {
  }

  /** Another packet leaves the account of a flow alone. */
  lemma OtherRxExact(par: Params, w: World, p: Bytes, env: Env, key: FlowKey)
    requires !Feeds(w, Rx(p, env), key)
    ensures Exact(OnRx(par, w, p, env), key) <==> Exact(w, key)
  {
    var after := OnRx(par, w, p, env);
    assert (key in after.kernel.flows <==> key in w.kernel.flows)
      && (key in w.kernel.flows ==> after.kernel.flows[key] == w.kernel.flows[key]);
    if LetThrough(w, p) {
      FedEntry(par, w, p, env);
      forall m, since: int ensures MarksSince(after.passed, key, since, m) == MarksSince(w.passed, key, since, m) {
        MarksOneMore(w.passed, RecordOf(Parse(p), env.now), key, since, m);
      }
    }
  }

  lemma KnownFlowExact(par: Params, w: World, p: Bytes, env: Env)
    requires LetThrough(w, p) && KeyOf(Parse(p)) in w.kernel.flows
    requires WithinWindow(par, w, KeyOf(Parse(p))) && InOrder(w, KeyOf(Parse(p))) && ClockReads(w, env.now)
    requires Exact(w, KeyOf(Parse(p)))
    ensures Exact(OnRx(par, w, p, env), KeyOf(Parse(p)))
  {
    FedEntry(par, w, p, env);
    forall m: Mark {
      TouchExact(par, w, RecordOf(Parse(p), env.now), TcpFlags(Parse(p).proto, Parse(p).l4), m);
    }
  }

  lemma NewFlowExact(par: Params, w: World, p: Bytes, env: Env)
    requires LetThrough(w, p) && KeyOf(Parse(p)) !in w.kernel.flows
    ensures Exact(OnRx(par, w, p, env), KeyOf(Parse(p))) <==> CleanStart(w, Rx(p, env), KeyOf(Parse(p)))
  {
    FedEntry(par, w, p, env);
    forall m: Mark {
      OneMoreExact(w.passed, RecordOf(Parse(p), env.now), env.now, 0, m);
    }
  }

  lemma StepExactIff(par: Params, w: World, a: Action, key: FlowKey)
    requires Enabled(par, w, a) && WithinWindow(par, w, key) && InOrder(w, key) && Exact(w, key)
    ensures Exact(Apply(par, w, a), key) <==> CleanStart(w, a, key)
  {
    if Feeds(w, a, key) {
      if key in w.kernel.flows {
        KnownFlowExact(par, w, a.p, a.env);
      } else {
        NewFlowExact(par, w, a.p, a.env);
      }
    } else if a.Rx? {
      OtherRxExact(par, w, a.p, a.env, key);
    }
  }

  ghost predicate CleanStarts(par: Params, acts: seq<Action>, key: FlowKey) {
    forall i :: 0 <= i < |acts| && Enabled(par, Exec(par, acts[..i]), acts[i]) ==>
      CleanStart(Exec(par, acts[..i]), acts[i], key)
  }

  lemma StepsExactIff(par: Params, acts: seq<Action>, key: FlowKey, i: nat)
    requires i < |acts| && Exact(Exec(par, acts[..i]), key)
    ensures Exact(Exec(par, acts[..i + 1]), key) <==>
      (Enabled(par, Exec(par, acts[..i]), acts[i]) ==> CleanStart(Exec(par, acts[..i]), acts[i], key))
  {
    ExecStep(par, acts, i);
    AlwaysInOrder(par, acts[..i], key);
    if Enabled(par, Exec(par, acts[..i]), acts[i]) {
      StepExactIff(par, Exec(par, acts[..i]), acts[i], key);
    }
  }

  lemma {:induction false} CleanStartsSuffice(par: Params, acts: seq<Action>, key: FlowKey, i: nat)
    requires i <= |acts| && CleanStarts(par, acts, key)
    ensures Exact(Exec(par, acts[..i]), key)
    decreases i
  {
    if i > 0 {
      CleanStartsSuffice(par, acts, key, i - 1);
      StepsExactIff(par, acts, key, i - 1);
    }
  }

  /** A flow's entry is exact at every moment of a run if and only if it is never made at
      an instant at which a SYN or ACK of the flow was let through before. That can only
      happen when the entry was evicted, or refused, in between. */
  lemma AccountsExactIff(par: Params, acts: seq<Action>, key: FlowKey)
    ensures (forall i :: 0 <= i <= |acts| ==> Exact(Exec(par, acts[..i]), key)) <==> CleanStarts(par, acts, key)
  {
    if CleanStarts(par, acts, key) {
      forall i | 0 <= i <= |acts| ensures Exact(Exec(par, acts[..i]), key) {
        CleanStartsSuffice(par, acts, key, i);
      }
    } else {
      var i :| 0 <= i < |acts| && Enabled(par, Exec(par, acts[..i]), acts[i])
        && !CleanStart(Exec(par, acts[..i]), acts[i], key);
      if Exact(Exec(par, acts[..i]), key) {
        StepsExactIff(par, acts, key, i);
      }
    }
  }

  // ----- What a snapshot detects -----

  /** The flows `starts` show a flood: there is one, and the SYNs let through in them exceed
      the ACKs by the threshold, each counted in 32 bits. */
  ghost predicate Flood(cfg: Config, passed: seq<Passed>, starts: map<FlowKey, int>) {
    starts != map[]
    && Unmatched(Wrap32(Marks(passed, starts, SynMark)), Wrap32(Marks(passed, starts, AckMark))) >= cfg.threshold
  }

  /** Below 2^32 packets that is plain arithmetic. */
  lemma FloodBelowWrap(cfg: Config, passed: seq<Passed>, starts: map<FlowKey, int>)
    requires Marks(passed, starts, SynMark) < TWO32 && Marks(passed, starts, AckMark) < TWO32
    ensures Flood(cfg, passed, starts) <==>
      && starts != map[]
      && (cfg.threshold == 0 || Marks(passed, starts, SynMark) >= Marks(passed, starts, AckMark) + cfg.threshold)
  {
  }

  lemma {:induction false} NoMarks(passed: seq<Passed>, m: Mark)
    ensures Marks(passed, map[], m) == 0
  {
    if passed != [] {
      NoMarks(passed[..|passed| - 1], m);
    }
  }

  lemma WrapSum(x: nat, y: nat, z: nat)
    requires Wrap32(x) == Wrap32(y)
    ensures Wrap32(x + Wrap32(z)) == Wrap32(y + z)
  {
    Add32OfWrap(z, x);
    Add32OfWrap(x, z);
    Add32OfWrap(y, z);
  }

  lemma TotalOneMore(before: seq<Entry>, e: Entry, ip: u32, now: u64, window: u64, m: Mark)
    ensures Total(before + [e], ip, now, window, m)
      == Total(before, ip, now, window, m) + if Counts(e, ip, now, window) then Figure(e.stats, m) else 0
  {
    var entries := before + [e];
    assert entries[..|entries| - 1] == before;
  }

  /** The totals of a snapshot are, in 32 bits, the marks in its eligible flows. */
  ghost predicate TotalsMatch(passed: seq<Passed>, entries: seq<Entry>, ip: u32, now: u64, window: u64, m: Mark) {
    Wrap32(Total(entries, ip, now, window, m)) == Wrap32(Marks(passed, Starts(entries, ip, now, window), m))
  }

  lemma TotalsMatchOneMore(w: World, before: seq<Entry>, e: Entry, ip: u32, now: u64, window: u64, m: Mark)
    requires e.key in w.kernel.flows && e.stats == w.kernel.flows[e.key]
    requires e.key.src == ip ==> Exact(w, e.key)
    requires forall i :: 0 <= i < |before| ==> before[i].key != e.key
    requires TotalsMatch(w.passed, before, ip, now, window, m)
    ensures TotalsMatch(w.passed, before + [e], ip, now, window, m)
  {
    var starts := Starts(before, ip, now, window);
    TotalOneMore(before, e, ip, now, window, m);
    StartsOneMore(before, e, ip, now, window);
    if Counts(e, ip, now, window) {
      MarksUnion(w.passed, starts, e.key, e.stats.firstSeen, m);
      WrapSum(Total(before, ip, now, window, m), Marks(w.passed, starts, m),
              MarksSince(w.passed, e.key, e.stats.firstSeen, m));
    }
  }

  lemma {:induction false} TotalsAreMarks(w: World, entries: seq<Entry>, ip: u32, now: u64, window: u64, m: Mark)
    requires Samples(entries, w.kernel.flows)
    requires forall key: FlowKey :: key.src == ip ==> Exact(w, key)
    ensures TotalsMatch(w.passed, entries, ip, now, window, m)
    decreases |entries|
  {
    if entries == [] {
      NoMarks(w.passed, m);
    } else {
      var before, e := entries[..|entries| - 1], entries[|entries| - 1];
      TotalsAreMarks(w, before, ip, now, window, m);
      TotalsMatchOneMore(w, before, e, ip, now, window, m);
      assert entries == before + [e];
    }
  }

  /** A snapshot newly flags a source exactly if it has an eligible flow and its totals, in
      32 bits, differ by the threshold. */
  lemma NewFlagByTotals(cfg: Config, t: State, entries: seq<Entry>, now: u64, ip: u32)
    requires !Flagged(t, ip)
    ensures var window := cfg.WindowNs();
      Flagged(OnSnapshot(cfg, t, entries, now), ip) <==>
        && Starts(entries, ip, now, window) != map[]
        && Unmatched(Wrap32(Total(entries, ip, now, window, SynMark)),
                     Wrap32(Total(entries, ip, now, window, AckMark))) >= cfg.threshold
  {
    TrackerRuns.SnapshotAt(cfg, t, entries, now, ip);
    SourcesHaveStarts(entries, now, cfg.WindowNs(), ip);
  }

  lemma SourcesHaveStarts(entries: seq<Entry>, now: u64, window: u64, ip: u32)
    ensures ip in Sources(entries, now, window) <==> Starts(entries, ip, now, window) != map[]
  {
    var starts := Starts(entries, ip, now, window);
    if ip in Sources(entries, now, window) {
      var e :| e in entries && Eligible(e, now, window) && e.key.src == ip;
      StartsAre(entries, ip, now, window, e.key);
      assert e.key in starts;
    }
    if starts != map[] {
      var key :| key in starts;
      StartsAre(entries, ip, now, window, key);
    }
  }

  lemma NewFlagIffFlood(cfg: Config, w: World, entries: seq<Entry>, now: u64, ip: u32)
    requires Samples(entries, w.kernel.flows) && !Flagged(w.tracker, ip)
    requires forall key: FlowKey :: key.src == ip ==> Exact(w, key)
    ensures Flagged(OnSnapshot(cfg, w.tracker, entries, now), ip)
      <==> Flood(cfg, w.passed, Starts(entries, ip, now, cfg.WindowNs()))
  {
    NewFlagByTotals(cfg, w.tracker, entries, now, ip);
    TotalsAreMarks(w, entries, ip, now, cfg.WindowNs(), SynMark);
    TotalsAreMarks(w, entries, ip, now, cfg.WindowNs(), AckMark);
  }

  /** No entry of the source is ever made at an instant at which a SYN or ACK of its flow
      was let through before. */
  ghost predicate SourceStartsClean(par: Params, acts: seq<Action>, ip: u32) {
    forall key: FlowKey :: key.src == ip ==> CleanStarts(par, acts, key)
  }

  lemma SourceIsExact(par: Params, acts: seq<Action>, ip: u32)
    requires SourceStartsClean(par, acts, ip)
    ensures forall key: FlowKey :: key.src == ip ==> Exact(Exec(par, acts), key)
  {
    forall key: FlowKey | key.src == ip ensures Exact(Exec(par, acts), key) {
      assert CleanStarts(par, acts, key);
      CleanStartsSuffice(par, acts, key, |acts|);
      assert acts[..|acts|] == acts;
    }
  }

  /** End to end, whatever was evicted, refused or missed: a snapshot newly flags a source
      if and only if the packets XDP let through in the flows it shows, since each of them
      began, make a flood. */
  lemma DetectionIff(par: Params, acts: seq<Action>, entries: seq<Entry>, now: u64, ip: u32)
    requires SourceStartsClean(par, acts, ip) && Samples(entries, Exec(par, acts).kernel.flows)
    requires !Flagged(Exec(par, acts).tracker, ip)
    ensures Flagged(OnSnapshot(par.cfg, Exec(par, acts).tracker, entries, now), ip)
      <==> Flood(par.cfg, Exec(par, acts).passed, Starts(entries, ip, now, par.cfg.WindowNs()))
  {
    SourceIsExact(par, acts, ip);
    NewFlagIffFlood(par.cfg, Exec(par, acts), entries, now, ip);
  }

  /** And the figures the snapshot leaves for the source are, in 32 bits, the SYNs and ACKs
      let through in those flows. */
  lemma FiguresAreMarks(par: Params, acts: seq<Action>, entries: seq<Entry>, now: u64, ip: u32)
    requires SourceStartsClean(par, acts, ip) && Samples(entries, Exec(par, acts).kernel.flows)
    requires Starts(entries, ip, now, par.cfg.WindowNs()) != map[]
    ensures var w := Exec(par, acts); var starts := Starts(entries, ip, now, par.cfg.WindowNs());
      var after := Get(OnSnapshot(par.cfg, w.tracker, entries, now).stats, ip);
      && after.syn == Marks(w.passed, starts, SynMark) % 0x1_0000_0000
      && after.ack == Marks(w.passed, starts, AckMark) % 0x1_0000_0000
  {
    var w, window := Exec(par, acts), par.cfg.WindowNs();
    SourceIsExact(par, acts, ip);
    SourcesHaveStarts(entries, now, window, ip);
    TrackerRuns.SnapshotAt(par.cfg, w.tracker, entries, now, ip);
    TotalsAreMarks(w, entries, ip, now, window, SynMark);
    TotalsAreMarks(w, entries, ip, now, window, AckMark);
    Wrap32IsMod(Marks(w.passed, Starts(entries, ip, now, window), SynMark));
    Wrap32IsMod(Marks(w.passed, Starts(entries, ip, now, window), AckMark));
  }

  /** With auto-blocking, a tick blocks a source that is not blocked exactly if it flags it. */
  lemma BlocksWhatItFlags(par: Params, acts: seq<Action>, entries: seq<Entry>, now: u64, writes: Writes, ip: u32)
    requires par.cfg.autoBlock && !Blocked(Exec(par, acts).tracker, ip)
    requires Enabled(par, Exec(par, acts), Tick(Taken(entries), now, writes))
    ensures !Flagged(Exec(par, acts).tracker, ip)
    ensures ip in TickBlocks(par.cfg, Exec(par, acts).tracker, Taken(entries), now)
      <==> Flagged(OnSnapshot(par.cfg, Exec(par, acts).tracker, entries, now), ip)
  {
    AlwaysInv(par, acts);
    var w := Exec(par, acts);
    assert Flagged(w.tracker, ip) && par.cfg.autoBlock ==> Blocked(w.tracker, ip);
    TickOnSource(par, w, Taken(entries), now, writes, ip);
  }

  /** So it blocks it if and only if those packets make a flood. */
  lemma BlockIff(par: Params, acts: seq<Action>, entries: seq<Entry>, now: u64, writes: Writes, ip: u32)
    requires SourceStartsClean(par, acts, ip) && par.cfg.autoBlock
    requires Enabled(par, Exec(par, acts), Tick(Taken(entries), now, writes))
    requires !Blocked(Exec(par, acts).tracker, ip)
    ensures ip in TickBlocks(par.cfg, Exec(par, acts).tracker, Taken(entries), now)
      <==> Flood(par.cfg, Exec(par, acts).passed, Starts(entries, ip, now, par.cfg.WindowNs()))
  {
    BlocksWhatItFlags(par, acts, entries, now, writes, ip);
    DetectionIff(par, acts, entries, now, ip);
  }

  // ----- The table as a function of the history -----

  /** When the current window of a flow began: at its first packet, and again at every
      packet that came more than a window later. Zero if it had no packet. */
  ghost function Start(passed: seq<Passed>, key: FlowKey, window: u64): u64 {
    if passed == [] then 0
    else
      var last, start := passed[|passed| - 1], Start(passed[..|passed| - 1], key, window);
      if last.key == key && (start == 0 || (window > 0 && last.time - start > window)) then last.time else start
  }

  lemma {:induction false} NoStartNoPackets(passed: seq<Passed>, key: FlowKey, window: u64)
    requires Start(passed, key, window) == 0
    requires forall i :: 0 <= i < |passed| ==> passed[i].time > 0
    ensures forall i :: 0 <= i < |passed| ==> passed[i].key != key
  {
    if passed != [] {
      var n := |passed| - 1;
      assert passed[n].time > 0;
      NoStartNoPackets(passed[..n], key, window);
      assert forall i :: 0 <= i < n ==> passed[i] == passed[..n][i];
    }
  }

  /** None of the source's entries is evicted and none of its insertions refused. */
  ghost predicate FlowsKept(acts: seq<Action>, ip: u32) {
    forall i :: 0 <= i < |acts| ==>
      match acts[i]
      case Rx(p, env) => Parse(p).Ipv4? && Parse(p).src == ip ==> env.insertOk
      case LruEvict(keys) => forall key :: key in keys ==> key.src != ip
      case _ => true
  }

  /** The flow is in the table exactly if it had a packet, with the right start. */
  ghost predicate StartKept(par: Params, w: World, key: FlowKey) {
    && (forall i :: 0 <= i < |w.passed| ==> w.passed[i].time > 0)
    && (key in w.kernel.flows <==> Start(w.passed, key, par.cfg.WindowNs()) != 0)
    && (key in w.kernel.flows ==> w.kernel.flows[key].firstSeen == Start(w.passed, key, par.cfg.WindowNs()))
  }

  /** The flow's entry is what the history says. */
  ghost predicate Mirrored(par: Params, w: World, key: FlowKey) {
    StartKept(par, w, key) && Exact(w, key)
  }

  lemma StartOneMore(passed: seq<Passed>, p: Passed, key: FlowKey, window: u64)
    ensures var start := Start(passed, key, window);
      Start(passed + [p], key, window)
      == if p.key == key && (start == 0 || (window > 0 && p.time - start > window)) then p.time else start
  {
    var more := passed + [p];
    assert more[..|more| - 1] == passed;
  }

  lemma RxKeepsStart(par: Params, w: World, p: Bytes, env: Env, key: FlowKey)
    requires StartKept(par, w, key) && ClockReads(w, env.now) && w.clock >= 1
    requires Feeds(w, Rx(p, env), key) ==> env.insertOk
    ensures StartKept(par, OnRx(par, w, p, env), key)
  {
    if LetThrough(w, p) {
      FedEntry(par, w, p, env);
      StartOneMore(w.passed, RecordOf(Parse(p), env.now), key, par.cfg.WindowNs());
    } else {
      assert OnRx(par, w, p, env).kernel.flows == w.kernel.flows;
    }
  }

  /** A flow without an entry had no packet, so its entry starts clean. */
  lemma KeptStartIsClean(par: Params, w: World, p: Bytes, env: Env, key: FlowKey)
    requires StartKept(par, w, key)
    ensures CleanStart(w, Rx(p, env), key)
  {
    if key !in w.kernel.flows {
      NoStartNoPackets(w.passed, key, par.cfg.WindowNs());
      forall m: Mark {
        NoneSince(w.passed, key, env.now, m);
      }
    }
  }

  lemma RxMirrored(par: Params, w: World, p: Bytes, env: Env, key: FlowKey)
    requires Mirrored(par, w, key) && InOrder(w, key) && WithinWindow(par, w, key)
    requires ClockReads(w, env.now) && w.clock >= 1
    requires Feeds(w, Rx(p, env), key) ==> env.insertOk
    ensures Mirrored(par, OnRx(par, w, p, env), key)
  {
    KeptStartIsClean(par, w, p, env, key);
    StepExactIff(par, w, Rx(p, env), key);
    RxKeepsStart(par, w, p, env, key);
  }

  lemma {:induction false} TableMirrorsHistory(par: Params, acts: seq<Action>, key: FlowKey)
    requires FlowsKept(acts, key.src)
    ensures Mirrored(par, Exec(par, acts), key)
  {
    if acts != [] {
      var n := |acts| - 1;
      var before, a := acts[..n], acts[n];
      assert FlowsKept(before, key.src) by {
        assert forall i :: 0 <= i < n ==> before[i] == acts[i];
      }
      TableMirrorsHistory(par, before, key);
      if a.Rx? && Enabled(par, Exec(par, before), a) {
        AlwaysInOrder(par, before, key);
        AlwaysInv(par, before);
        RxMirrored(par, Exec(par, before), a.p, a.env, key);
      }
    }
  }

  // ----- Which histories are detected -----

  /** A TCP flow whose current window began within a window before `now`. */
  ghost predicate Live(passed: seq<Passed>, key: FlowKey, now: u64, window: u64) {
    var start := Start(passed, key, window);
    key.proto == 6 && start != 0 && !Elapsed(now, start, window)
  }

  /** The live flows of a source, and when their current windows began. */
  ghost function LiveStarts(passed: seq<Passed>, ip: u32, now: u64, window: u64): map<FlowKey, int> {
    var live := set i | 0 <= i < |passed| && passed[i].key.src == ip && Live(passed, passed[i].key, now, window)
                :: passed[i].key;
    map key | key in live :: Start(passed, key, window)
  }

  lemma LiveStartsAre(passed: seq<Passed>, ip: u32, now: u64, window: u64, key: FlowKey)
    ensures var starts := LiveStarts(passed, ip, now, window);
      && (key in starts <==> key.src == ip && Live(passed, key, now, window))
      && (key in starts ==> starts[key] == Start(passed, key, window))
  {
    if Live(passed, key, now, window) {
      HasPacket(passed, key, window);
    }
  }

  lemma {:induction false} HasPacket(passed: seq<Passed>, key: FlowKey, window: u64)
    requires Start(passed, key, window) != 0
    ensures exists i :: 0 <= i < |passed| && passed[i].key == key
  {
    var n := |passed| - 1;
    if passed[n].key != key {
      HasPacket(passed[..n], key, window);
      var i :| 0 <= i < n && passed[..n][i].key == key;
      assert passed[i].key == key;
    }
  }

  /** The eligible flows of a complete snapshot are the live flows of the history. */
  lemma StartsAreLive(par: Params, w: World, entries: seq<Entry>, ip: u32, now: u64)
    requires Reads(entries, w.kernel.flows) && forall key :: Accounted(w, key)
    requires forall key: FlowKey :: key.src == ip ==> StartKept(par, w, key)
    ensures Starts(entries, ip, now, par.cfg.WindowNs()) == LiveStarts(w.passed, ip, now, par.cfg.WindowNs())
  {
    var window := par.cfg.WindowNs();
    var starts, live := Starts(entries, ip, now, window), LiveStarts(w.passed, ip, now, window);
    forall key ensures (key in starts <==> key in live) && (key in starts ==> starts[key] == live[key]) {
      StartsAre(entries, ip, now, window, key);
      LiveStartsAre(w.passed, ip, now, window, key);
      if key.src == ip {
        CountsIffLive(par, w, entries, key, now);
      }
    }
  }

  lemma CountsIffLive(par: Params, w: World, entries: seq<Entry>, key: FlowKey, now: u64)
    requires Reads(entries, w.kernel.flows) && Accounted(w, key) && StartKept(par, w, key)
    ensures Live(w.passed, key, now, par.cfg.WindowNs()) <==>
      exists i :: 0 <= i < |entries| && entries[i].key == key && Counts(entries[i], key.src, now, par.cfg.WindowNs())
    ensures forall i :: 0 <= i < |entries| && entries[i].key == key ==>
      entries[i].stats.firstSeen == Start(w.passed, key, par.cfg.WindowNs())
  {
    if Live(w.passed, key, now, par.cfg.WindowNs()) {
      var i :| 0 <= i < |entries| && entries[i].key == key;
      assert Counts(entries[i], key.src, now, par.cfg.WindowNs());
    }
  }

  /** If none of a source's flows was evicted or refused, a complete snapshot newly flags it
      if and only if the history of packets XDP let through shows a flood. */
  lemma HistoryDetectionIff(par: Params, acts: seq<Action>, entries: seq<Entry>, now: u64, ip: u32)
    requires FlowsKept(acts, ip) && Reads(entries, Exec(par, acts).kernel.flows)
    requires !Flagged(Exec(par, acts).tracker, ip)
    ensures Flagged(OnSnapshot(par.cfg, Exec(par, acts).tracker, entries, now), ip)
      <==> Flood(par.cfg, Exec(par, acts).passed, LiveStarts(Exec(par, acts).passed, ip, now, par.cfg.WindowNs()))
  {
    forall key: FlowKey | key.src == ip ensures Mirrored(par, Exec(par, acts), key) {
      TableMirrorsHistory(par, acts, key);
    }
    AlwaysInv(par, acts);
    StartsAreLive(par, Exec(par, acts), entries, ip, now);
    NewFlagIffFlood(par.cfg, Exec(par, acts), entries, now, ip);
  }

  /** With auto-blocking, a tick blocks it if and only if it does. */
  lemma HistoryBlockIff(par: Params, acts: seq<Action>, entries: seq<Entry>, now: u64, writes: Writes, ip: u32)
    requires FlowsKept(acts, ip) && Reads(entries, Exec(par, acts).kernel.flows) && par.cfg.autoBlock
    requires Enabled(par, Exec(par, acts), Tick(Taken(entries), now, writes))
    requires !Blocked(Exec(par, acts).tracker, ip)
    ensures ip in TickBlocks(par.cfg, Exec(par, acts).tracker, Taken(entries), now)
      <==> Flood(par.cfg, Exec(par, acts).passed, LiveStarts(Exec(par, acts).passed, ip, now, par.cfg.WindowNs()))
  {
    BlocksWhatItFlags(par, acts, entries, now, writes, ip);
    HistoryDetectionIff(par, acts, entries, now, ip);
  }
}
