/** The closed loop: the XDP program feeds flows to the tracker, and the tick of
    `cmd_top` (src/cli/commands/top.cpp) feeds the tracker's decisions back into the
    blacklist that decides which packets are dropped. */
module ControlLoop {
  import opened Words
  import opened Packet
  import opened Xdp
  import opened Sets
  import opened Tracker
  import TrackerRuns
  import opened TrackerProgram

  datatype Params = Params(cfg: Config, sampleN: u32) {
    /** Kernel and tracker are started with the same window. */
    function KernelSetup(): Setup {
      Setup(sampleN, cfg.windowS)
    }
  }

  /** A packet that XDP let through, as the flow table sees it. */
  datatype Passed = Passed(key: FlowKey, syn: bool, ack: bool, time: u64)

  /** `clock` is the latest time read so far; `passed` is the history of IPv4 packets
      let through. Both only serve the statements. */
  datatype World = World(kernel: Kernel, tracker: State, clock: u64, passed: seq<Passed>)

  const INITIAL := World(BOOT, START, 1, [])

  datatype Action =
    | Rx(p: Bytes, env: Env)            // a packet arrives
    | LruEvict(keys: set<FlowKey>)      // the flow table evicts entries
    | Deliver(e: Event)                 // the ring buffer hands over an event
    | Operator(prefixes: set<Prefix>)   // an operator replaces the shorter prefixes
    | Tick(snapshot: Snapshot, now: u64, writes: Writes)

  /** How the blocks of a tick are written to the blacklist: in which order, and which
      insertions fail for want of memory. */
  datatype Writes = Writes(order: seq<u32>, refused: set<u32>)

  // ----- The blacklist under the tick's updates -----

  /** One insertion; a new key is refused by a full map or for want of memory, and the
      program ignores that. */
  function AddHost(blacklist: set<Prefix>, ip: u32, refused: set<u32>): set<Prefix> {
    if ip !in refused && |blacklist| < MAX_BLACKLIST then blacklist + {Prefix(32, ip)} else blacklist
  }

  function AddHosts(blacklist: set<Prefix>, ips: seq<u32>, refused: set<u32>): set<Prefix> {
    if ips == [] then blacklist
    else AddHost(AddHosts(blacklist, ips[..|ips| - 1], refused), ips[|ips| - 1], refused)
  }

  function Written(blacklist: set<Prefix>, writes: Writes): set<Prefix> {
    AddHosts(blacklist, writes.order, writes.refused)
  }

  function RemoveHosts(blacklist: set<Prefix>, ips: set<u32>): set<Prefix> {
    set p | p in blacklist && !(p.len == 32 && p.data in ips)
  }

  function Hosts(ips: seq<u32>): set<Prefix> {
    set ip | ip in ips :: Prefix(32, ip)
  }

  // ----- Steps -----

  /** Entries of the flow table, none twice: a snapshot may miss some. */
  ghost predicate Samples(entries: seq<Entry>, flows: map<FlowKey, FlowStats>) {
    && (forall i :: 0 <= i < |entries| ==> entries[i].key in flows && entries[i].stats == flows[entries[i].key])
    && (forall i, j :: 0 <= i < j < |entries| ==> entries[i].key != entries[j].key)
  }

  /** Every entry of the flow table once. */
  ghost predicate Reads(entries: seq<Entry>, flows: map<FlowKey, FlowStats>) {
    && Samples(entries, flows)
    && (forall k :: k in flows ==> exists i :: 0 <= i < |entries| && entries[i].key == k)
  }

  ghost predicate ClockReads(w: World, now: u64) {
    w.clock <= now < TWO63
  }

  ghost predicate Enabled(par: Params, w: World, a: Action) {
    match a
    case Rx(_, env) => ClockReads(w, env.now)
    case LruEvict(_) => true
    case Deliver(_) => true
    case Operator(prefixes) =>
      && (forall p :: p in prefixes ==> p.len < 32)
      && |Reshaped(w.kernel.blacklist, prefixes)| <= MAX_BLACKLIST
    case Tick(snapshot, now, writes) =>
      && ClockReads(w, now)
      && (snapshot.Taken? ==> Samples(snapshot.entries, w.kernel.flows))
      && Lists(writes.order, TickBlocks(par.cfg, w.tracker, snapshot, now))
  }

  function Reshaped(blacklist: set<Prefix>, prefixes: set<Prefix>): set<Prefix> {
    prefixes + set p | p in blacklist && p.len == 32
  }

  /** The packet is let through as IPv4. */
  predicate LetThrough(w: World, p: Bytes) {
    Parse(p).Ipv4? && VerdictOf(w.kernel, p) == Pass
  }

  function OnRx(par: Params, w: World, p: Bytes, env: Env): World {
    World(Receive(par.KernelSetup(), w.kernel, p, env), w.tracker, env.now,
          if LetThrough(w, p) then w.passed + [RecordOf(Parse(p), env.now)] else w.passed)
  }

  function RecordOf(pkt: Parsed, now: u64): Passed
    requires pkt.Ipv4?
  {
    var flags := TcpFlags(pkt.proto, pkt.l4);
    Passed(KeyOf(pkt), Syn(flags), Ack(flags), now)
  }

  function OnTickAction(par: Params, w: World, snapshot: Snapshot, now: u64, writes: Writes): World {
    var unblocks := TickUnblocks(par.cfg, w.tracker, snapshot, now, true);
    World(w.kernel.(blacklist := RemoveHosts(Written(w.kernel.blacklist, writes), unblocks)),
          OnTick(par.cfg, w.tracker, snapshot, now, true), now, w.passed)
  }

  function Apply(par: Params, w: World, a: Action): World {
    match a
    case Rx(p, env) => OnRx(par, w, p, env)
    case LruEvict(keys) => w.(kernel := w.kernel.(flows := w.kernel.flows - keys))
    case Deliver(e) => w.(tracker := OnEvent(w.tracker, e))
    case Operator(prefixes) => w.(kernel := w.kernel.(blacklist := Reshaped(w.kernel.blacklist, prefixes)))
    case Tick(snapshot, now, writes) => OnTickAction(par, w, snapshot, now, writes)
  }

  /** The world after a run; an action that cannot happen is skipped. */
  ghost function Exec(par: Params, acts: seq<Action>): World {
    if acts == [] then INITIAL
    else
      var w := Exec(par, acts[..|acts| - 1]);
      if Enabled(par, w, acts[|acts| - 1]) then Apply(par, w, acts[|acts| - 1]) else w
  }

  // ----- The kernel's account of SYN packets -----

  /** The two kinds of packet a flow entry counts. */
  datatype Mark = SynMark | AckMark

  predicate Bears(p: Passed, m: Mark) {
    if m.SynMark? then p.syn else p.ack
  }

  /** Packets with the mark let through in one of the flows `starts`, at or after the time
      given for it. */
  ghost function Marks(passed: seq<Passed>, starts: map<FlowKey, int>, m: Mark): nat {
    if passed == [] then 0
    else
      var last := passed[|passed| - 1];
      Marks(passed[..|passed| - 1], starts, m)
      + One(Bears(last, m) && last.key in starts && last.time >= starts[last.key])
  }

  /** The same for a single flow. */
  ghost function MarksSince(passed: seq<Passed>, key: FlowKey, since: int, m: Mark): nat {
    Marks(passed, map[key := since], m)
  }

  /** SYN packets let through from the source `ip` at or after `since`. */
  ghost function SynsFrom(passed: seq<Passed>, ip: u32, since: int): nat {
    if passed == [] then 0
    else
      var last := passed[|passed| - 1];
      SynsFrom(passed[..|passed| - 1], ip, since) + One(last.syn && last.key.src == ip && last.time >= since)
  }

  lemma MarksOneMore(passed: seq<Passed>, p: Passed, key: FlowKey, since: int, m: Mark)
    ensures MarksSince(passed + [p], key, since, m)
      == MarksSince(passed, key, since, m) + One(Bears(p, m) && p.key == key && p.time >= since)
  {
    var more := passed + [p];
    assert more[..|more| - 1] == passed;
  }

  lemma {:induction false} MarksUnion(passed: seq<Passed>, starts: map<FlowKey, int>, key: FlowKey, since: int, m: Mark)
    requires key !in starts
    ensures Marks(passed, starts[key := since], m) == Marks(passed, starts, m) + MarksSince(passed, key, since, m)
  {
    if passed != [] {
      MarksUnion(passed[..|passed| - 1], starts, key, since, m);
    }
  }

  /** Marks in flows of one source are packets of that source. */
  lemma {:induction false} MarksOfSource(passed: seq<Passed>, starts: map<FlowKey, int>, ip: u32, since: int)
    requires forall key :: key in starts ==> key.src == ip && starts[key] >= since
    ensures Marks(passed, starts, SynMark) <= SynsFrom(passed, ip, since)
  {
    if passed != [] {
      MarksOfSource(passed[..|passed| - 1], starts, ip, since);
    }
  }

  /** A flow entry's times are ordered, and every SYN it counts was let through at or
      after its first packet. */
  ghost predicate Accounted(w: World, key: FlowKey) {
    key in w.kernel.flows ==>
      var f := w.kernel.flows[key];
      && 1 <= f.firstSeen <= f.lastSeen <= w.clock
      && f.syn <= MarksSince(w.passed, key, f.firstSeen, SynMark)
  }

  lemma RxKeepsAccount(par: Params, w: World, p: Bytes, env: Env, key: FlowKey)
    requires Accounted(w, key) && ClockReads(w, env.now) && w.clock >= 1
    ensures Accounted(OnRx(par, w, p, env), key)
  {
    var after := OnRx(par, w, p, env);
    if LetThrough(w, p) {
      var pkt := RecordOf(Parse(p), env.now);
      var flags := TcpFlags(Parse(p).proto, Parse(p).l4);
      assert after.passed == w.passed + [pkt];
      assert after.kernel.flows == TrackFlow(par.KernelSetup(), w.kernel.flows, pkt.key, flags, env);
      if key in after.kernel.flows {
        MarksOneMore(w.passed, pkt, key, after.kernel.flows[key].firstSeen, SynMark);
      }
      if key == pkt.key && key in w.kernel.flows {
        TouchKeepsAccount(w, pkt, Touch(w.kernel.flows[key], flags, env.now, par.KernelSetup().WindowNs()));
      }
    } else {
      assert after.kernel.flows == w.kernel.flows;
    }
  }

  /** Counting one more SYN, in 32 bits and after a restart or not, stays within what
      was let through. */
  lemma TouchKeepsAccount(w: World, pkt: Passed, f: FlowStats)
    requires pkt.key in w.kernel.flows && Accounted(w, pkt.key) && w.clock <= pkt.time
    requires
      || (f.firstSeen == w.kernel.flows[pkt.key].firstSeen && f.syn == Add32(w.kernel.flows[pkt.key].syn, One(pkt.syn)))
      || (f.firstSeen == pkt.time && f.syn == Add32(0, One(pkt.syn)))
    ensures f.syn <= MarksSince(w.passed + [pkt], pkt.key, f.firstSeen, SynMark)
  {
    MarksOneMore(w.passed, pkt, pkt.key, f.firstSeen, SynMark);
    Wrap32Lowers(w.kernel.flows[pkt.key].syn + One(pkt.syn));
  }

  // ----- What every step keeps -----

  /** A host entry of the blacklist belongs to a blocked source, whose flows have been
      frozen since the block. */
  ghost predicate HostHeld(w: World, ip: u32) {
    Prefix(32, ip) in w.kernel.blacklist ==>
      && Blocked(w.tracker, ip)
      && forall k :: k in w.kernel.flows && k.src == ip ==>
           w.kernel.flows[k].lastSeen <= Get(w.tracker.stats, ip).blockStart
  }

  ghost predicate Inv(par: Params, w: World) {
    && w.clock >= 1
    && |w.kernel.blacklist| <= MAX_BLACKLIST
    && TrackerRuns.FlagsAgree(par.cfg, w.tracker)
    && (forall key :: Accounted(w, key))
    && (forall ip :: HostHeld(w, ip))
    && (forall ip :: Blocked(w.tracker, ip) ==> Get(w.tracker.stats, ip).blockStart <= w.clock)
  }

  lemma {:induction false} AddHostsBounds(blacklist: set<Prefix>, ips: seq<u32>, refused: set<u32>)
    requires |blacklist| <= MAX_BLACKLIST
    ensures blacklist <= AddHosts(blacklist, ips, refused) <= blacklist + Hosts(ips)
    ensures forall p :: p in AddHosts(blacklist, ips, refused) && p !in blacklist ==> p.data !in refused
    ensures |AddHosts(blacklist, ips, refused)| <= MAX_BLACKLIST
  {
    if ips != [] {
      var before, ip := ips[..|ips| - 1], ips[|ips| - 1];
      AddHostsBounds(blacklist, before, refused);
      assert ips == before + [ip];
    }
  }

  lemma ListedHost(blacklist: set<Prefix>, ip: u32)
    requires Prefix(32, ip) in blacklist
    ensures Listed(blacklist, ip)
  {
    HostPrefixCovers(ip, ip);
  }

  /** A packet does not touch the flows of another source, nor of a listed one. */
  lemma RxFrame(par: Params, w: World, p: Bytes, env: Env, key: FlowKey)
    ensures var after := OnRx(par, w, p, env);
      (key in after.kernel.flows && !(LetThrough(w, p) && KeyOf(Parse(p)) == key)) ==>
        key in w.kernel.flows && after.kernel.flows[key] == w.kernel.flows[key]
    ensures LetThrough(w, p) ==> Prefix(32, Parse(p).src) !in w.kernel.blacklist
    ensures OnRx(par, w, p, env).kernel.blacklist == w.kernel.blacklist
  {
    if LetThrough(w, p) && Prefix(32, Parse(p).src) in w.kernel.blacklist {
      ListedHost(w.kernel.blacklist, Parse(p).src);
    }
  }

  lemma RxKeepsInv(par: Params, w: World, p: Bytes, env: Env)
    requires Inv(par, w) && ClockReads(w, env.now)
    ensures Inv(par, OnRx(par, w, p, env))
  {
    var after := OnRx(par, w, p, env);
    forall key ensures Accounted(after, key) {
      RxKeepsAccount(par, w, p, env, key);
    }
    forall ip ensures HostHeld(after, ip) {
      assert HostHeld(w, ip);
      forall k | k in after.kernel.flows && k.src == ip && Prefix(32, ip) in after.kernel.blacklist
        ensures after.kernel.flows[k].lastSeen <= Get(after.tracker.stats, ip).blockStart {
        RxFrame(par, w, p, env, k);
      }
      RxFrame(par, w, p, env, FlowKey(ip, 0, 0, 0, 0));
    }
    RxFrame(par, w, p, env, FlowKey(0, 0, 0, 0, 0));
  }

  /** What a tick does to one source: its status, and its host entry. */
  lemma TickOnSource(par: Params, w: World, snapshot: Snapshot, now: u64, writes: Writes, ip: u32)
    requires Inv(par, w) && Enabled(par, w, Tick(snapshot, now, writes))
    ensures var after := OnTickAction(par, w, snapshot, now, writes);
      var s := Get(w.tracker.stats, ip);
      var s1 := Get(AfterSnapshot(par.cfg, w.tracker, snapshot, now).stats, ip);
      var s2 := Block(par.cfg, s1, now);
      var entry := Prefix(32, ip);
      && s1.blocked == s.blocked && s1.blockStart == s.blockStart
      && (ip in writes.order <==> DueForBlock(par.cfg, s1))
      && (Blocked(after.tracker, ip) <==> s2.blocked && !Expired(par.cfg, s2, now))
      && (Blocked(after.tracker, ip) ==> Get(after.tracker.stats, ip).blockStart == s2.blockStart)
      && (ip in TickUnblocks(par.cfg, w.tracker, snapshot, now, true) <==> Expired(par.cfg, s2, now))
      && (entry in after.kernel.blacklist <==>
            entry in Written(w.kernel.blacklist, writes) && !Expired(par.cfg, s2, now))
      && (entry in w.kernel.blacklist ==> entry in Written(w.kernel.blacklist, writes))
      && (entry in Written(w.kernel.blacklist, writes) ==> entry in w.kernel.blacklist || ip in writes.order)
  {
    assert Blocked(w.tracker, ip) ==> Flagged(w.tracker, ip) && par.cfg.autoBlock;
    TrackerRuns.TickAt(par.cfg, w.tracker, snapshot, now, true, ip);
    AddHostsBounds(w.kernel.blacklist, writes.order, writes.refused);
  }

  lemma TickKeepsInv(par: Params, w: World, snapshot: Snapshot, now: u64, writes: Writes)
    requires Inv(par, w) && Enabled(par, w, Tick(snapshot, now, writes))
    ensures Inv(par, OnTickAction(par, w, snapshot, now, writes))
  {
    var after := OnTickAction(par, w, snapshot, now, writes);
    TrackerRuns.StepKeepsFlags(par.cfg, w.tracker, TrackerRuns.Tick(snapshot, now));
    AddHostsBounds(w.kernel.blacklist, writes.order, writes.refused);
    SubsetSize(after.kernel.blacklist, Written(w.kernel.blacklist, writes));
    forall key ensures Accounted(after, key) {
      assert Accounted(w, key);
    }
    forall ip ensures HostHeld(after, ip)
      && (Blocked(after.tracker, ip) ==> Get(after.tracker.stats, ip).blockStart <= after.clock) {
      TickOnSource(par, w, snapshot, now, writes, ip);
      assert HostHeld(w, ip);
      assert forall k :: k in w.kernel.flows ==> Accounted(w, k);
    }
  }

  lemma OtherKeepsInv(par: Params, w: World, a: Action)
    requires Inv(par, w) && Enabled(par, w, a) && !a.Rx? && !a.Tick?
    ensures Inv(par, Apply(par, w, a))
  {
    var after := Apply(par, w, a);
    forall key ensures Accounted(after, key) {
      assert Accounted(w, key);
    }
    if a.Deliver? {
      TrackerRuns.StepKeepsFlags(par.cfg, w.tracker, TrackerRuns.Observe(a.e));
      forall ip ensures HostHeld(after, ip)
        && (Blocked(after.tracker, ip) ==> Get(after.tracker.stats, ip).blockStart <= after.clock) {
        TrackerRuns.EventAt(w.tracker, a.e, ip);
        assert HostHeld(w, ip);
      }
    } else {
      forall ip ensures HostHeld(after, ip) {
        assert HostHeld(w, ip);
      }
    }
  }

  lemma ApplyKeepsInv(par: Params, w: World, a: Action)
    requires Inv(par, w) && Enabled(par, w, a)
    ensures Inv(par, Apply(par, w, a))
  {
    match a
    case Rx(p, env) => RxKeepsInv(par, w, p, env);
    case Tick(snapshot, now, writes) => TickKeepsInv(par, w, snapshot, now, writes);
    case _ => OtherKeepsInv(par, w, a);
  }

  lemma {:induction false} AlwaysInv(par: Params, acts: seq<Action>)
    ensures Inv(par, Exec(par, acts))
  {
    if acts != [] {
      AlwaysInv(par, acts[..|acts| - 1]);
      var w, a := Exec(par, acts[..|acts| - 1]), acts[|acts| - 1];
      if Enabled(par, w, a) {
        ApplyKeepsInv(par, w, a);
      }
    }
  }
}
