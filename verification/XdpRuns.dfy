/** Whole runs of the XDP program with packets in sequence: what the counters and
    the ring buffer say about everything that was received. */
module XdpRuns {
  import opened Words
  import opened Packet
  import opened Xdp
  import opened Sets

  /** Between packets the blacklist may change and flow entries may be evicted. */
  datatype Action =
    | Rx(p: Bytes, env: Env)
    | Edit(blacklist: set<Prefix>)
    | Evict(keys: set<FlowKey>)

  function Step(setup: Setup, k: Kernel, a: Action): Kernel {
    match a
    case Rx(p, env) => Receive(setup, k, p, env)
    case Edit(blacklist) => k.(blacklist := blacklist)
    case Evict(keys) => k.(flows := k.flows - keys)
  }

  /** The maps after a run from boot. */
  function Exec(setup: Setup, acts: seq<Action>): Kernel {
    if acts == [] then BOOT
    else Step(setup, Exec(setup, acts[..|acts| - 1]), acts[|acts| - 1])
  }

  // ----- What happened, kept apart from the maps -----

  /** The counter one packet belongs to, if any. */
  function CountedAs(k: Kernel, p: Bytes): multiset<u32> {
    match Parse(p)
    case Ignored => multiset{}
    case CountOnly(key) => multiset{key}
    case Ipv4(src, _, proto, _, _) =>
      if Listed(k.blacklist, src) then multiset{DROPPED} else multiset{proto as u32}
  }

  /** The packet is chosen for reporting: an IPv4 packet that is dropped, opens a
      flow, or is drawn. */
  predicate Selected(setup: Setup, k: Kernel, p: Bytes, env: Env) {
    && Parse(p).Ipv4?
    && ShouldEmit(setup.sampleN, env.random,
                  VerdictOf(k, p) == Drop || KeyOf(Parse(p)) !in k.flows)
  }

  /** `refused` counts the selected packets for which the ring had no room,
      `refusedDrops` those of them that were dropped. */
  datatype History = History(selected: nat, refused: nat, refusedDrops: nat)

  function Record(setup: Setup, h: History, k: Kernel, a: Action): History {
    if !a.Rx? then h
    else
      var sel := Selected(setup, k, a.p, a.env);
      var lost := sel && !a.env.reserveOk;
      History(h.selected + One(sel),
              h.refused + One(lost),
              h.refusedDrops + One(lost && VerdictOf(k, a.p) == Drop))
  }

  function Past(setup: Setup, acts: seq<Action>): History {
    if acts == [] then History(0, 0, 0)
    else Record(setup, Past(setup, acts[..|acts| - 1]), Exec(setup, acts[..|acts| - 1]), acts[|acts| - 1])
  }

  /** The counters of all counted packets of a run. */
  function Counted(setup: Setup, acts: seq<Action>): multiset<u32> {
    if acts == [] then multiset{}
    else
      var before, a := acts[..|acts| - 1], acts[|acts| - 1];
      Counted(setup, before) + (if a.Rx? then CountedAs(Exec(setup, before), a.p) else multiset{})
  }

  // ----- Counter exactness -----

  /** The table holds only counted keys, and misses one only when it is full. */
  ghost predicate SlotsMatch(counts: map<u32, u64>, counted: multiset<u32>) {
    && |counts| <= MAX_COUNTERS
    && (forall key :: key in counts ==> key in counted)
    && (forall key :: key in counted && key !in counts ==> |counts| == MAX_COUNTERS)
  }

  lemma IncrementKeepsSlots(counts: map<u32, u64>, counted: multiset<u32>, key: u32)
    requires SlotsMatch(counts, counted)
    ensures SlotsMatch(Increment(counts, key), counted + multiset{key})
  {
    var after, more := Increment(counts, key), counted + multiset{key};
    assert forall k :: k in more <==> k in counted || k == key;
    if key in counts {
      assert after.Keys == counts.Keys;
      assert |after| == |after.Keys| == |counts|;
    } else if |counts| < MAX_COUNTERS {
      assert after.Keys == counts.Keys + {key};
      assert |after| == |after.Keys| == |counts| + 1;
    }
  }

  /** Either nothing changes and the packet is not counted, or one key is. */
  lemma CountsAfter(setup: Setup, k: Kernel, p: Bytes, env: Env)
    ensures
      || (Receive(setup, k, p, env).counts == k.counts && CountedAs(k, p) == multiset{})
      || exists key :: CountedAs(k, p) == multiset{key}
           && Receive(setup, k, p, env).counts == Increment(k.counts, key)
  {
    match Parse(p)
    case Ignored =>
    case CountOnly(key) => assert CountedAs(k, p) == multiset{key};
    case Ipv4(src, _, proto, _, _) =>
      var key: u32 := if Listed(k.blacklist, src) then DROPPED else proto;
      assert CountedAs(k, p) == multiset{key};
  }

  /** In every run a key that has occurred is missing from the table only when the
      table is full. */
  lemma {:induction false} SlotsExact(setup: Setup, acts: seq<Action>)
    ensures SlotsMatch(Exec(setup, acts).counts, Counted(setup, acts))
  {
    if acts != [] {
      var before, a := acts[..|acts| - 1], acts[|acts| - 1];
      SlotsExact(setup, before);
      var k, counted := Exec(setup, before), Counted(setup, before);
      if a.Rx? {
        CountsAfter(setup, k, a.p, a.env);
        if CountedAs(k, a.p) != multiset{} {
          var key :| CountedAs(k, a.p) == multiset{key}
            && Receive(setup, k, a.p, a.env).counts == Increment(k.counts, key);
          IncrementKeepsSlots(k.counts, counted, key);
        } else {
          assert counted + multiset{} == counted;
        }
      }
    }
  }

  /** The counter of `key`, if it has one, stands at `n` after `laps` wrap-arounds. */
  ghost predicate CounterIs(counts: map<u32, u64>, key: u32, n: nat, laps: nat) {
    key in counts ==> counts[key] + TWO64 * laps == n
  }

  /** One packet moves a counter from the number of packets counted under its key to
      the next. */
  lemma OneCountExact(setup: Setup, k: Kernel, p: Bytes, env: Env, key: u32, n: nat, laps: nat) returns (after: nat)
    requires CounterIs(k.counts, key, n, laps)
    requires key !in k.counts && |k.counts| < MAX_COUNTERS ==> n == 0
    ensures CounterIs(Receive(setup, k, p, env).counts, key, n + CountedAs(k, p)[key], after)
  {
    CountsAfter(setup, k, p, env);
    after := if key !in k.counts then 0
             else if key in CountedAs(k, p) && k.counts[key] == TWO64 - 1 then laps + 1
             else laps;
  }

  lemma AbsentMeansUncounted(setup: Setup, acts: seq<Action>, key: u32)
    ensures key !in Exec(setup, acts).counts && |Exec(setup, acts).counts| < MAX_COUNTERS ==>
      Counted(setup, acts)[key] == 0
  {
    SlotsExact(setup, acts);
  }

  lemma {:induction false} CountersLap(setup: Setup, acts: seq<Action>, key: u32) returns (laps: nat)
    ensures CounterIs(Exec(setup, acts).counts, key, Counted(setup, acts)[key], laps)
  {
    laps := 0;
    if acts != [] {
      var before, a := acts[..|acts| - 1], acts[|acts| - 1];
      laps := CountersLap(setup, before, key);
      if a.Rx? {
        AbsentMeansUncounted(setup, before, key);
        laps := OneCountExact(setup, Exec(setup, before), a.p, a.env, key, Counted(setup, before)[key], laps);
      }
    }
  }

  /** In every run each counter present holds exactly the number of packets counted
      under it. */
  lemma CountersExact(setup: Setup, acts: seq<Action>, key: u32)
    requires key in Exec(setup, acts).counts
    ensures Exec(setup, acts).counts[key] == Wrap64(Counted(setup, acts)[key])
  {
    var laps := CountersLap(setup, acts, key);
    SameWrap64(Exec(setup, acts).counts[key], Counted(setup, acts)[key], laps);
  }

  ghost function Distinct(counted: multiset<u32>): set<u32> {
    set key | key in counted
  }

  /** No key is missing exactly when at most 256 different keys have occurred. */
  lemma NothingMissingIff(setup: Setup, acts: seq<Action>)
    ensures var counts, counted := Exec(setup, acts).counts, Counted(setup, acts);
      (forall key :: key in counted ==> key in counts) <==> |Distinct(counted)| <= 256
  {
    SlotsExact(setup, acts);
    var counts, counted := Exec(setup, acts).counts, Counted(setup, acts);
    assert counts.Keys <= Distinct(counted);
    if forall key :: key in counted ==> key in counts {
      assert counts.Keys == Distinct(counted);
    } else {
      var key :| key in counted && key !in counts;
      SubsetSize(counts.Keys + {key}, Distinct(counted));
    }
  }

  /** Only 259 keys can occur: the protocol numbers, IPv6, ARP and drops. */
  lemma PossibleKeys(k: Kernel, p: Bytes, key: u32)
    requires key in CountedAs(k, p)
    ensures key < 0x100 || key == 0x86DD || key == 0x0806 || key == DROPPED
  {
  }

  // ----- The protocol breakdown -----

  ghost function Pick(keys: set<u32>): (key: u32)
    requires keys != {}
    ensures key in keys
  {
    var key :| key in keys; key
  }

  /** The sum of the counters of `keys`. */
  ghost function SumOver(counts: map<u32, u64>, keys: set<u32>): nat
    requires keys <= counts.Keys
  {
    if keys == {} then 0 else counts[Pick(keys)] + SumOver(counts, keys - {Pick(keys)})
  }

  lemma {:induction false} SumTakesAny(counts: map<u32, u64>, keys: set<u32>, key: u32)
    requires keys <= counts.Keys && key in keys
    ensures SumOver(counts, keys) == counts[key] + SumOver(counts, keys - {key})
    decreases keys
  {
    var x := Pick(keys);
    if x != key {
      SumTakesAny(counts, keys - {x}, key);
      SumTakesAny(counts, keys - {key}, x);
      assert keys - {x} - {key} == keys - {key} - {x};
    }
  }

  datatype Breakdown = Breakdown(tcp: u64, udp: u64, icmp: u64, other: u64, dropped: u64) {
    function Total(): nat {
      tcp + udp + icmp + other + dropped
    }
  }

  /** The counters shown by name; every other key goes to `other`. */
  const NAMED: set<u32> := {1, 6, 17, DROPPED}

  ghost predicate BreaksDown(b: Breakdown, counts: map<u32, u64>, done: set<u32>)
    requires done <= counts.Keys
  {
    && b.icmp == (if 1 in done then counts[1] else 0)
    && b.tcp == (if 6 in done then counts[6] else 0)
    && b.udp == (if 17 in done then counts[17] else 0)
    && b.dropped == (if DROPPED in done then counts[DROPPED] else 0)
    && b.other == Wrap64(SumOver(counts, done - NAMED))
  }

  /** `refresh_protocol_breakdown`: visits the keys of the counter map in whatever
      order the kernel returns them. */
  method RefreshBreakdown(counts: map<u32, u64>) returns (b: Breakdown)
    ensures BreaksDown(b, counts, counts.Keys)
  {
    b := Breakdown(0, 0, 0, 0, 0);
    var todo := counts.Keys;
    ghost var done: set<u32> := {};
    while todo != {}
      invariant done !! todo && done + todo == counts.Keys
      invariant BreaksDown(b, counts, done)
      decreases todo
    {
      var key :| key in todo;
      ghost var next := done + {key};
      if key in NAMED {
        assert next - NAMED == done - NAMED;
      } else {
        SumTakesAny(counts, next - NAMED, key);
        assert next - NAMED - {key} == done - NAMED;
        Add64OfWrap(SumOver(counts, done - NAMED), counts[key]);
      }
      if key == 1 {
        b := b.(icmp := Add64(b.icmp, counts[key]));
      } else if key == 6 {
        b := b.(tcp := Add64(b.tcp, counts[key]));
      } else if key == 17 {
        b := b.(udp := Add64(b.udp, counts[key]));
      } else if key == DROPPED {
        b := b.(dropped := Add64(b.dropped, counts[key]));
      } else {
        b := b.(other := Add64(b.other, counts[key]));
      }
      done, todo := next, todo - {key};
    }
    assert done == counts.Keys;
  }

  lemma SumWithout(counts: map<u32, u64>, keys: set<u32>, key: u32)
    requires keys <= counts.Keys
    ensures SumOver(counts, keys)
      == (if key in keys then counts[key] else 0) + SumOver(counts, keys - {key})
  {
    if key in keys {
      SumTakesAny(counts, keys, key);
    } else {
      assert keys - {key} == keys;
    }
  }

  /** The five figures add up to the sum of all counters. */
  lemma BreakdownTotal(b: Breakdown, counts: map<u32, u64>)
    requires BreaksDown(b, counts, counts.Keys)
    ensures Wrap64(b.Total()) == Wrap64(SumOver(counts, counts.Keys))
  {
    var all := counts.Keys;
    SumWithout(counts, all, 1);
    SumWithout(counts, all - {1}, 6);
    SumWithout(counts, all - {1} - {6}, 17);
    SumWithout(counts, all - {1} - {6} - {17}, DROPPED);
    assert all - {1} - {6} - {17} - {DROPPED} == all - NAMED;
    var others := SumOver(counts, all - NAMED);
    WrapSplits(others);
    SameWrap64(b.Total(), SumOver(counts, all), others / TWO64);
  }

  /** How often the counters of `keys` have wrapped around. */
  ghost function Wraps(counted: multiset<u32>, keys: set<u32>): nat {
    if keys == {} then 0 else counted[Pick(keys)] / TWO64 + Wraps(counted, keys - {Pick(keys)})
  }

  lemma {:induction false} WrapsDependsOnKeys(a: multiset<u32>, b: multiset<u32>, keys: set<u32>)
    requires forall key :: key in keys ==> a[key] == b[key]
    ensures Wraps(a, keys) == Wraps(b, keys)
  {
    if keys != {} {
      WrapsDependsOnKeys(a, b, keys - {Pick(keys)});
    }
  }

  lemma WrapSplits(x: nat)
    ensures x == Wrap64(x) + TWO64 * (x / TWO64)
  {
    Wrap64IsMod(x);
  }

  /** Counters that are exact for every key counted add up to the number of counted
      packets. */
  lemma {:induction false} SumCountsPackets(counts: map<u32, u64>, counted: multiset<u32>, keys: set<u32>)
    requires keys <= counts.Keys
    requires forall key :: key in counted ==> key in keys
    requires forall key :: key in keys ==> counts[key] == Wrap64(counted[key])
    ensures SumOver(counts, keys) + TWO64 * Wraps(counted, keys) == |counted|
    decreases keys
  {
    if keys == {} {
      assert counted == multiset{};
    } else {
      var key := Pick(keys);
      var rest := counted[key := 0];
      assert |rest| == |counted| - counted[key];
      SumCountsPackets(counts, rest, keys - {key});
      WrapsDependsOnKeys(counted, rest, keys - {key});
      WrapSplits(counted[key]);
    }
  }

  /** With at most 256 different keys seen, the five figures of the breakdown add up
      to all counted packets. */
  lemma BreakdownTotalsAllPackets(setup: Setup, acts: seq<Action>, b: Breakdown)
    requires |Distinct(Counted(setup, acts))| <= 256
    requires BreaksDown(b, Exec(setup, acts).counts, Exec(setup, acts).counts.Keys)
    ensures Wrap64(b.Total()) == Wrap64(|Counted(setup, acts)|)
  {
    var counts, counted := Exec(setup, acts).counts, Counted(setup, acts);
    NothingMissingIff(setup, acts);
    forall key | key in counts ensures counts[key] == Wrap64(counted[key]) {
      CountersExact(setup, acts, key);
    }
    SumCountsPackets(counts, counted, counts.Keys);
    BreakdownTotal(b, counts);
    SameWrap64(SumOver(counts, counts.Keys), |counted|, Wraps(counted, counts.Keys));
  }

  /** And the four named ones are the TCP, UDP and ICMP packets that passed and the packets
      that were dropped. */
  lemma BreakdownShowsProtocols(setup: Setup, acts: seq<Action>, b: Breakdown)
    requires |Distinct(Counted(setup, acts))| <= 256
    requires BreaksDown(b, Exec(setup, acts).counts, Exec(setup, acts).counts.Keys)
    ensures var counted := Counted(setup, acts);
      && b.tcp == Wrap64(counted[6]) && b.udp == Wrap64(counted[17]) && b.icmp == Wrap64(counted[1])
      && b.dropped == Wrap64(counted[0xFFFF])
  {
    NothingMissingIff(setup, acts);
    CounterShown(setup, acts, 6);
    CounterShown(setup, acts, 17);
    CounterShown(setup, acts, 1);
    CounterShown(setup, acts, 0xFFFF);
  }

  lemma CounterShown(setup: Setup, acts: seq<Action>, key: u32)
    requires key in Counted(setup, acts) ==> key in Exec(setup, acts).counts
    ensures (if key in Exec(setup, acts).counts then Exec(setup, acts).counts[key] else 0)
      == Wrap64(Counted(setup, acts)[key])
  {
    if key in Exec(setup, acts).counts {
      CountersExact(setup, acts, key);
    }
  }

  // ----- Event conservation -----

  /** The number of reported drops. */
  function DropEvents(events: seq<Event>): nat {
    if events == [] then 0
    else DropEvents(events[..|events| - 1]) + One(events[|events| - 1].action == 1)
  }

  /** In every run, the packets selected for reporting are the submitted events plus
      the ring's refusals, and the events marked as drops account for every dropped
      packet but the refused ones. */
  lemma {:induction false} EventsConserved(setup: Setup, acts: seq<Action>)
    ensures var k, h := Exec(setup, acts), Past(setup, acts);
      && |k.events| + h.refused == h.selected
      && DropEvents(k.events) + h.refusedDrops == Counted(setup, acts)[DROPPED]
      && h.refusedDrops <= h.refused
  {
    if acts != [] {
      var before, a := acts[..|acts| - 1], acts[|acts| - 1];
      EventsConserved(setup, before);
      if a.Rx? {
        OnePacketConserved(setup, Exec(setup, before), a.p, a.env);
      }
    }
  }

  /** `ringbuf_drops` counts the refusals. */
  lemma {:induction false} RingDropsCountRefusals(setup: Setup, acts: seq<Action>)
    ensures Exec(setup, acts).ringDrops == Wrap64(Past(setup, acts).refused)
  {
    if acts != [] {
      var before, a := acts[..|acts| - 1], acts[|acts| - 1];
      RingDropsCountRefusals(setup, before);
      StepCountsRefusals(setup, Exec(setup, before), Past(setup, before), a);
    }
  }

  lemma StepCountsRefusals(setup: Setup, k: Kernel, h: History, a: Action)
    requires k.ringDrops == Wrap64(h.refused)
    ensures Step(setup, k, a).ringDrops == Wrap64(Record(setup, h, k, a).refused)
  {
    Add64OfWrap(h.refused, 1);
  }

  lemma OnePacketConserved(setup: Setup, k: Kernel, p: Bytes, env: Env)
    ensures var after := Receive(setup, k, p, env);
      var sel, drop := Selected(setup, k, p, env), VerdictOf(k, p) == Drop;
      && |after.events| == |k.events| + One(sel && env.reserveOk)
      && DropEvents(after.events) == DropEvents(k.events) + One(sel && env.reserveOk && drop)
      && CountedAs(k, p)[DROPPED] == One(drop)
      && (drop ==> sel)
  {
    var after := Receive(setup, k, p, env);
    if after.events != k.events {
      assert after.events[..|after.events| - 1] == k.events;
    }
  }

  /** If the ring never refused an event and the drop counter has a slot, the drop
      counter and the reported drops agree. */
  lemma DropsReportedExactly(setup: Setup, acts: seq<Action>)
    requires Past(setup, acts).refused == 0
    requires DROPPED in Exec(setup, acts).counts
    ensures Exec(setup, acts).counts[DROPPED] == Wrap64(DropEvents(Exec(setup, acts).events))
  {
    var k, h := Exec(setup, acts), Past(setup, acts);
    assert DropEvents(k.events) == Counted(setup, acts)[DROPPED] by { EventsConserved(setup, acts); }
    CountersExact(setup, acts, DROPPED);
  }
}
