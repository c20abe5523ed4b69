/** `inc_count` (bpf/kwatch.bpf.c) on many CPUs at once. A call looks its key up, and
    then either adds to the counter it found or inserts 1 unless the key has appeared
    meanwhile. CPUs interleave between these two steps. */
module ConcurrentCounter {
  import opened Words
  import opened Xdp

  /** Where a CPU is in its call. */
  datatype Cpu = Idle | Hit(key: u32) | Missed(key: u32)

  /** The shared table and the CPUs, with the calls finished so far and, among them,
      those whose insert found the key already there or the table full. */
  datatype State = State(
    counts: map<u32, u64>,
    cpus: seq<Cpu>,
    finished: multiset<u32>,
    lost: multiset<u32>)

  datatype Step =
    | Lookup(cpu: nat, key: u32)
    | Finish(cpu: nat)

  function Init(n: nat): State {
    State(map[], seq(n, _ => Idle), multiset{}, multiset{})
  }

  /** One step of one CPU; a step the CPU cannot take changes nothing. */
  function Next(s: State, step: Step): State {
    if step.cpu >= |s.cpus| then s
    else
      match step
      case Lookup(c, key) =>
        if s.cpus[c] != Idle then s
        else s.(cpus := s.cpus[c := if key in s.counts then Hit(key) else Missed(key)])
      case Finish(c) =>
        match s.cpus[c]
        case Idle => s
        case Hit(key) => if key in s.counts then Add(s, c, key) else s
        case Missed(key) => Insert(s, c, key)
  }

  function Add(s: State, c: nat, key: u32): State
    requires c < |s.cpus| && key in s.counts
  {
    s.(counts := s.counts[key := Add64(s.counts[key], 1)],
       cpus := s.cpus[c := Idle],
       finished := s.finished + multiset{key})
  }

  function Insert(s: State, c: nat, key: u32): State
    requires c < |s.cpus|
  {
    var done := s.(cpus := s.cpus[c := Idle], finished := s.finished + multiset{key});
    if key !in s.counts && |s.counts| < MAX_COUNTERS then done.(counts := s.counts[key := 1])
    else done.(lost := s.lost + multiset{key})
  }

  function Exec(s: State, steps: seq<Step>): State {
    if steps == [] then s
    else Next(Exec(s, steps[..|steps| - 1]), steps[|steps| - 1])
  }

  /** A call that no other CPU interrupts is exactly the sequential `Increment`. */
  lemma UninterruptedCall(s: State, c: nat, key: u32)
    requires c < |s.cpus| && s.cpus[c] == Idle
    ensures var t := Next(Next(s, Lookup(c, key)), Finish(c));
      && t.counts == Increment(s.counts, key)
      && t.cpus == s.cpus
      && t.finished == s.finished + multiset{key}
  {
    assert s.cpus[c := Idle] == s.cpus;
  }

  /** The CPUs that looked `key` up, found nothing, and have not finished. */
  function Pending(cpus: seq<Cpu>, key: u32): nat {
    if cpus == [] then 0
    else Pending(cpus[..|cpus| - 1], key) + (if cpus[|cpus| - 1] == Missed(key) then 1 else 0)
  }

  lemma {:induction false} PendingUpdate(cpus: seq<Cpu>, c: nat, cpu: Cpu, key: u32)
    requires c < |cpus|
    ensures Pending(cpus[c := cpu], key)
      == Pending(cpus, key) - (if cpus[c] == Missed(key) then 1 else 0) + (if cpu == Missed(key) then 1 else 0)
  {
    var n := |cpus| - 1;
    if c < n {
      PendingUpdate(cpus[..n], c, cpu, key);
      assert cpus[c := cpu][..n] == cpus[..n][c := cpu];
    } else {
      assert cpus[c := cpu][..n] == cpus[..n];
    }
  }

  lemma {:induction false} PendingBound(cpus: seq<Cpu>, key: u32)
    ensures Pending(cpus, key) <= |cpus|
  {
    if cpus != [] {
      PendingBound(cpus[..|cpus| - 1], key);
    }
  }

  /** What every step keeps, for one key. A lookup can miss only while the key is
      absent; once it is there, the misses still pending are all that can be lost. */
  ghost predicate Inv(s: State, key: u32) {
    && s.lost[key] <= s.finished[key]
    && (key in s.counts ==>
          && s.finished[key] > s.lost[key]
          && s.counts[key] == Wrap64(s.finished[key] - s.lost[key])
          && s.lost[key] + Pending(s.cpus, key) < |s.cpus|)
    && (key !in s.counts ==> s.finished[key] == s.lost[key])
    && (key !in s.counts && |s.counts| < MAX_COUNTERS ==> s.finished[key] == 0)
    && (forall c :: 0 <= c < |s.cpus| && s.cpus[c] == Hit(key) ==> key in s.counts)
  }

  lemma {:induction false} InitInv(n: nat, key: u32)
    ensures Inv(Init(n), key)
  {
  }

  lemma LookupInv(s: State, c: nat, looked: u32, key: u32)
    requires Inv(s, key)
    ensures Inv(Next(s, Lookup(c, looked)), key)
  {
    if c < |s.cpus| && s.cpus[c] == Idle {
      PendingUpdate(s.cpus, c, if looked in s.counts then Hit(looked) else Missed(looked), key);
    }
  }

  lemma AddInv(s: State, c: nat, added: u32, key: u32)
    requires Inv(s, key) && c < |s.cpus| && s.cpus[c] == Hit(added) && added in s.counts
    ensures Inv(Add(s, c, added), key)
  {
    PendingUpdate(s.cpus, c, Idle, key);
    assert Add(s, c, added).counts.Keys == s.counts.Keys;
    assert |Add(s, c, added).counts.Keys| == |s.counts.Keys|;
    if added == key {
      Add64OfWrap(s.finished[key] - s.lost[key], 1);
    }
  }

  lemma InsertInv(s: State, c: nat, inserted: u32, key: u32)
    requires Inv(s, key) && c < |s.cpus| && s.cpus[c] == Missed(inserted)
    ensures Inv(Insert(s, c, inserted), key)
  {
    PendingUpdate(s.cpus, c, Idle, key);
    PendingBound(s.cpus, key);
    var t := Insert(s, c, inserted);
    if t.counts != s.counts {
      assert t.counts.Keys == s.counts.Keys + {inserted};
      assert |t.counts.Keys| == |s.counts.Keys| + 1;
    }
  }

  lemma NextInv(s: State, step: Step, key: u32)
    requires Inv(s, key)
    ensures Inv(Next(s, step), key)
  {
    match step
    case Lookup(c, looked) => LookupInv(s, c, looked, key);
    case Finish(c) =>
      if c < |s.cpus| {
        match s.cpus[c]
        case Idle =>
        case Hit(k) => if k in s.counts { AddInv(s, c, k, key); }
        case Missed(k) => InsertInv(s, c, k, key);
      }
  }

  lemma {:induction false} ExecInv(n: nat, steps: seq<Step>, key: u32)
    ensures Inv(Exec(Init(n), steps), key)
    ensures |Exec(Init(n), steps).cpus| == n
  {
    if steps == [] {
      InitInv(n, key);
    } else {
      ExecInv(n, steps[..|steps| - 1], key);
      NextInv(Exec(Init(n), steps[..|steps| - 1]), steps[|steps| - 1], key);
    }
  }

  /** In every interleaving on `n` CPUs, a key's counter never exceeds the finished
      calls for it and, over the whole run, falls short of them by at most n - 1. A key
      with finished calls lacks a counter only when the table is full. */
  lemma CounterBound(n: nat, steps: seq<Step>, key: u32)
    requires Exec(Init(n), steps).finished[key] < TWO64
    ensures var s := Exec(Init(n), steps);
      && (key in s.counts ==> s.counts[key] <= s.finished[key] <= s.counts[key] + n - 1)
      && (key !in s.counts && s.finished[key] > 0 ==> |s.counts| >= MAX_COUNTERS)
  {
    ExecInv(n, steps, key);
  }

  /** With a single CPU no call is ever lost. */
  lemma SingleCpuExact(steps: seq<Step>, key: u32)
    requires key in Exec(Init(1), steps).counts
    ensures Exec(Init(1), steps).counts[key] == Wrap64(Exec(Init(1), steps).finished[key])
  {
    ExecInv(1, steps, key);
    SingleCpuLosesNothing(Exec(Init(1), steps), key);
  }

  lemma SingleCpuLosesNothing(s: State, key: u32)
    requires Inv(s, key) && |s.cpus| == 1 && key in s.counts
    ensures s.counts[key] == Wrap64(s.finished[key])
  {
    assert s.lost[key] == 0;
  }

  // ----- The bound is reached -----

  /** CPUs 0..n-1 all look `key` up; then they all finish. */
  ghost function LookupAll(n: nat, key: u32): seq<Step> {
    seq(n, (c: nat) => Lookup(c, key))
  }

  ghost function FinishAll(n: nat): seq<Step> {
    seq(n, (c: nat) => Finish(c))
  }

  lemma {:induction false} ExecAppends(s: State, a: seq<Step>, b: seq<Step>)
    ensures Exec(s, a + b) == Exec(Exec(s, a), b)
  {
    if b == [] {
      assert a + b == a;
    } else {
      ExecAppends(s, a, b[..|b| - 1]);
      assert (a + b)[..|a + b| - 1] == a + b[..|b| - 1];
    }
  }

  lemma {:induction false} AllLookedUp(n: nat, m: nat, key: u32)
    requires m <= n
    ensures Exec(Init(n), LookupAll(m, key))
      == State(map[], seq(n, c => if c < m then Missed(key) else Idle), multiset{}, multiset{})
  {
    var target := seq(n, c => if c < m then Missed(key) else Idle);
    if m == 0 {
      assert target == seq(n, _ => Idle);
    } else {
      AllLookedUp(n, m - 1, key);
      assert LookupAll(m, key)[..m - 1] == LookupAll(m - 1, key);
      assert seq(n, c => if c < m - 1 then Missed(key) else Idle)[m - 1 := Missed(key)] == target;
    }
  }

  /** `m` of `n` CPUs have finished; only the first of them was counted. */
  ghost predicate OnlyOneCounted(s: State, n: nat, m: nat, key: u32) {
    && s.counts == map[key := 1]
    && s.finished[key] == m
    && |s.cpus| == n
    && forall c :: m <= c < n ==> s.cpus[c] == Missed(key)
  }

  lemma NextIsLost(s: State, n: nat, m: nat, key: u32)
    requires OnlyOneCounted(s, n, m, key) && m < n
    ensures OnlyOneCounted(Next(s, Finish(m)), n, m + 1, key)
  {
    assert s.cpus[m] == Missed(key);
    assert Next(s, Finish(m)) == Insert(s, m, key);
  }

  lemma {:induction false} AllFinished(s: State, n: nat, m: nat, key: u32)
    requires 1 <= m <= n
    requires s == State(map[], seq(n, _ => Missed(key)), multiset{}, multiset{})
    ensures OnlyOneCounted(Exec(s, FinishAll(m)), n, m, key)
  {
    assert FinishAll(m)[..m - 1] == FinishAll(m - 1);
    if m == 1 {
      assert Exec(s, FinishAll(1)) == Next(s, Finish(0)) == Insert(s, 0, key);
    } else {
      AllFinished(s, n, m - 1, key);
      NextIsLost(Exec(s, FinishAll(m - 1)), n, m - 1, key);
    }
  }

  /** The bound cannot be improved: for every number of CPUs there is an interleaving
      that loses n - 1 of n calls. */
  lemma CounterBoundIsReached(n: nat, key: u32)
    requires n > 0
    ensures var s := Exec(Init(n), LookupAll(n, key) + FinishAll(n));
      key in s.counts && s.finished[key] == s.counts[key] + n - 1
  {
    AllLookedUp(n, n, key);
    var s := Exec(Init(n), LookupAll(n, key));
    assert s.cpus == seq(n, _ => Missed(key));
    AllFinished(s, n, n, key);
    ExecAppends(Init(n), LookupAll(n, key), FinishAll(n));
  }
}
