/** Frames in whole runs of the closed loop: what the history records of them, what an
    operator's entry drops, and where their events end up. */
module FrameRuns {
  import opened Words
  import opened Packet
  import opened Xdp
  import XdpRuns
  import opened Tracker
  import TrackerRuns
  import opened ControlLoop
  import opened LoopTheorems
  import opened Frames

  // ----- The history -----

  /** The history records exactly the IPv4 frames that come from no listed address, with
      their flow and with the SYN and ACK bits of their flags byte. */
  lemma RecordedFrame(par: Params, w: World, p: Bytes, env: Env)
    ensures LetThrough(w, p) <==> Ipv4Frame(p) && !FromListed(w.kernel, p)
    ensures !LetThrough(w, p) ==> OnRx(par, w, p, env).passed == w.passed
    ensures LetThrough(w, p) ==>
      var record := RecordOf(Parse(p), env.now);
      && OnRx(par, w, p, env).passed == w.passed + [record] && record.time == env.now
      && record.key.src == SourceOf(p) && record.key.dst == DestinationOf(p) && record.key.proto == ProtocolOf(p)
      && PortsOf(p, record.key.sport, record.key.dport)
      && (record.syn <==> FlagsOf(p) % 4 >= 2) && (record.ack <==> FlagsOf(p) % 32 >= 16)
  {
    DroppedIff(w.kernel, p);
    Ipv4Fields(p);
    if Ipv4Frame(p) {
      TransportBytes(p);
      FlagBits(FlagsOf(p));
    }
  }

  lemma FlagBits(flags: u8)
    ensures Syn(flags) <==> flags % 4 >= 2
    ensures Ack(flags) <==> flags % 32 >= 16
  {
    var two, low := flags % 4, flags % 32;
    SynBit(flags, flags / 4, two / 2, two % 2);
    AckBit(flags, flags / 32, low / 16, low % 16);
  }

  // ----- An operator's entry -----

  /** The operator put the entry in at position `i` and has not edited the list since. */
  ghost predicate PutInAt(par: Params, acts: seq<Action>, i: nat, m: nat, e: Prefix) {
    && i < m <= |acts| && acts[i].Operator? && Enabled(par, Exec(par, acts[..i]), acts[i])
    && e in acts[i].prefixes
    && forall n :: i < n < m ==> !acts[n].Operator?
  }

  lemma EntryStays(par: Params, w: World, a: Action, e: Prefix)
    requires Inv(par, w) && Enabled(par, w, a) && !a.Operator? && e.len < 32 && e in w.kernel.blacklist
    ensures e in Apply(par, w, a).kernel.blacklist
  {
    match a
    case Rx(p, env) => RxFrame(par, w, p, env, FlowKey(0, 0, 0, 0, 0));
    case Tick(snapshot, now, writes) => AddHostsBounds(w.kernel.blacklist, writes.order, writes.refused);
    case _ =>
  }

  /** No tick, packet or event takes an operator's entry out. */
  lemma {:induction false} EntryHolds(par: Params, acts: seq<Action>, i: nat, m: nat, e: Prefix)
    requires PutInAt(par, acts, i, m, e)
    ensures e.len < 32 && e in Exec(par, acts[..m]).kernel.blacklist
    decreases m
  {
    ExecStep(par, acts, m - 1);
    if m > i + 1 {
      EntryHolds(par, acts, i, m - 1, e);
      AlwaysInv(par, acts[..m - 1]);
      if Enabled(par, Exec(par, acts[..m - 1]), acts[m - 1]) {
        EntryStays(par, Exec(par, acts[..m - 1]), acts[m - 1], e);
      }
    }
  }

  /** In every run, while an operator's entry stands, every IPv4 frame from its range is
      dropped, counted under 0xFFFF and reported as dropped, and feeds no flow. */
  lemma EntryDrops(par: Params, acts: seq<Action>, i: nat, m: nat, e: Prefix, p: Bytes, env: Env)
    requires PutInAt(par, acts, i, m, e)
    requires Ipv4Frame(p) && InRange(e, SourceOf(p))
    ensures var w := Exec(par, acts[..m]); var after := OnRx(par, w, p, env);
      && VerdictOf(w.kernel, p) == Drop && XdpRuns.CountedAs(w.kernel, p) == multiset{0xFFFF}
      && after.kernel.flows == w.kernel.flows && after.passed == w.passed
      && (env.reserveOk ==> |after.kernel.events| == |w.kernel.events| + 1
                            && Describes(after.kernel.events[|w.kernel.events|], p, true, env.ts))
  {
    var w := Exec(par, acts[..m]);
    EntryHolds(par, acts, i, m, e);
    assert FromListed(w.kernel, p);
    FrameDropped(par, w, p, env);
  }

  lemma FrameDropped(par: Params, w: World, p: Bytes, env: Env)
    requires FromListed(w.kernel, p)
    ensures var after := OnRx(par, w, p, env);
      && VerdictOf(w.kernel, p) == Drop && XdpRuns.CountedAs(w.kernel, p) == multiset{0xFFFF}
      && after.kernel.flows == w.kernel.flows && after.passed == w.passed
      && (env.reserveOk ==> |after.kernel.events| == |w.kernel.events| + 1
                            && Describes(after.kernel.events[|w.kernel.events|], p, true, env.ts))
  {
    DroppedIff(w.kernel, p);
    CountedUnder(w.kernel, p, 0xFFFF);
    FlowFed(par.KernelSetup(), w.kernel, p, env);
    EventOf(par.KernelSetup(), w.kernel, p, env);
  }

  /** A bare IPv4 header from 10.0.0.`host`. */
  function FrameFrom(host: u8): Bytes {
    IPV4_FRAME_HEADER + [0x45, 0, 0, 20, 0, 0, 0, 0, 64, 17, 0, 0, 10, 0, 0, host, 10, 0, 1, 1]
  }

  /** 10.0.0.0/24 */
  const LAN := Prefix(24, 0x0a00_0000)

  /** Under 10.0.0.0/24 every host of the network is dropped, and 10.0.1.1 is not. */
  lemma LanIsDropped(k: Kernel, host: u8)
    requires k.blacklist == {LAN}
    ensures VerdictOf(k, FrameFrom(host)) == Drop
    ensures !InRange(LAN, 0x0a00_0101)
  {
    var p := FrameFrom(host);
    assert Ipv4Frame(p) && SourceOf(p) == 0x0a00_0000 + host;
    assert Span(30) == 4 && Span(28) == 16 && Span(26) == 64 && Span(24) == 256;
    assert InRange(LAN, SourceOf(p));
    DroppedIff(k, p);
  }

  // ----- Events and whom they credit -----

  /** The event was submitted for the frame that arrives at position `i`. */
  ghost predicate EventFor(par: Params, acts: seq<Action>, i: nat, e: Event) {
    && i < |acts| && acts[i].Rx? && Ipv4Frame(acts[i].p)
    && Describes(e, acts[i].p, FromListed(Exec(par, acts[..i]).kernel, acts[i].p), acts[i].env.ts)
  }

  /** Every event of every run was submitted for a frame that it describes. */
  lemma {:induction false} EveryEventDescribesItsFrame(par: Params, acts: seq<Action>, j: nat) returns (i: nat)
    requires j < |Exec(par, acts).kernel.events|
    ensures EventFor(par, acts, i, Exec(par, acts).kernel.events[j])
  {
    var n := |acts| - 1;
    var before, a := acts[..n], acts[n];
    var w := Exec(par, before);
    if a.Rx? && Enabled(par, w, a) {
      EventOf(par.KernelSetup(), w.kernel, a.p, a.env);
    }
    if j < |w.kernel.events| {
      assert Exec(par, acts).kernel.events[j] == w.kernel.events[j];
      i := EveryEventDescribesItsFrame(par, before, j);
      assert before[..i] == acts[..i] && before[i] == acts[i];
    } else {
      i := n;
    }
  }

  /** The figures of a source after an event of its frame `p` stamped `ts`: latest activity,
      and the frame's TTL unless it is zero. */
  ghost function Credited(s: IpStats, p: Bytes, ts: u64): IpStats
    requires Ipv4Frame(p)
  {
    s.(lastEvent := if ts > s.lastEvent then ts else s.lastEvent,
       lastTtl := if TtlOf(p) != 0 then TtlOf(p) else s.lastTtl)
  }

  /** Delivering the event of a frame credits the frame's own source and no other. */
  lemma DeliveryCredits(t: State, e: Event, p: Bytes, dropped: bool, ts: u64, ip: u32)
    requires Ipv4Frame(p) && Describes(e, p, dropped, ts)
    ensures var s := Get(t.stats, ip);
      Get(OnEvent(t, e).stats, ip) == if ip == SourceOf(p) then Credited(s, p, ts) else s
  {
  }

  /** In every run, delivering any submitted event credits the source of the frame it was
      submitted for, and no other. */
  lemma DeliveryCreditsSender(par: Params, acts: seq<Action>, j: nat) returns (i: nat)
    requires j < |Exec(par, acts).kernel.events|
    ensures var w := Exec(par, acts); var e := w.kernel.events[j];
      && EventFor(par, acts, i, e)
      && forall ip: u32 :: var s := Get(w.tracker.stats, ip);
           Get(Apply(par, w, Deliver(e)).tracker.stats, ip)
           == if ip == SourceOf(acts[i].p) then Credited(s, acts[i].p, acts[i].env.ts) else s
  {
    i := EveryEventDescribesItsFrame(par, acts, j);
    var w := Exec(par, acts);
    var p, e := acts[i].p, w.kernel.events[j];
    forall ip: u32 ensures var s := Get(w.tracker.stats, ip);
      Get(OnEvent(w.tracker, e).stats, ip) == if ip == SourceOf(p) then Credited(s, p, acts[i].env.ts) else s {
      DeliveryCredits(w.tracker, e, p, FromListed(Exec(par, acts[..i]).kernel, p), acts[i].env.ts, ip);
    }
  }
}
