/** Every run of pin, unpin, cleanup and detach on one interface, by any processes,
    which may die at any time and whose pids may be reused. */
module OwnershipRuns {
  import opened Ownership

  /** `used` are the processes there have been so far. */
  datatype Moment = Moment(sys: Sys, used: set<Id>)

  datatype Action =
    | Spawn(id: Id)                     // a new process; a reused pid has a new start time
    | Exit(pid: int, zombie: bool)      // a process dies, or a zombie is reaped
    | Pin(self: Id, pinEnv: PinEnv)
    | Unpin(self: Id, unpinEnv: UnpinEnv)
    | Cleanup(env: CleanupEnv)
    | Detach(stop: StopEnv, env: CleanupEnv)

  ghost predicate Next(m: Moment, a: Action, n: Moment) {
    var s, t := m.sys, n.sys;
    match a
    case Spawn(id) =>
      && id.pid !in s.procs && id !in m.used && Recordable(id)
      && n == Moment(s.(procs := s.procs[id.pid := Proc(id.start, false)]), m.used + {id})
    case Exit(pid, zombie) =>
      && pid in s.procs
      && n == m.(sys := s.(procs := if zombie then s.procs[pid := s.procs[pid].(zombie := true)] else s.procs - {pid}))
    case Pin(self, env) =>
      && Alive(s.procs, self) && Recordable(self) && n.used == m.used
      && exists r :: PinPost(s, t, self, env, r)
    case Unpin(self, env) =>
      && Alive(s.procs, self) && self in s.holders && n.used == m.used
      && exists died :: UnpinPost(s, t, self, env, died)
    case Cleanup(env) => n.used == m.used && exists r :: CleanupPost(s, t, env, r)
    case Detach(stop, env) => n.used == m.used && exists r :: DetachPost(s, t, stop, env, r)
  }

  /** A run starts on whatever is in the file system, with nobody holding the
      interface. The program has maps. */
  ghost predicate Initial(m: Moment) {
    && m.sys.holders == {} && m.sys.maps != {}
    && forall pid :: pid in m.sys.procs ==> Id(pid, m.sys.procs[pid].start) in m.used
  }

  ghost predicate IsRun(trace: seq<Moment>, acts: seq<Action>) {
    && |trace| == |acts| + 1
    && Initial(trace[0])
    && forall i :: 0 <= i < |acts| ==> Next(trace[i], acts[i], trace[i + 1])
  }

  /** A process holds the interface: it is alive and its `pinned_path` is set. */
  ghost predicate Owns(s: Sys, id: Id) {
    id in s.holders && Alive(s.procs, id)
  }

  ghost predicate Owned(s: Sys) {
    exists id :: Owns(s, id)
  }

  /** What a step keeps that does not overlook the owner. */
  ghost predicate Inv(m: Moment) {
    && m.sys.holders <= m.used && m.sys.maps != {}
    && (forall pid :: pid in m.sys.procs ==> Id(pid, m.sys.procs[pid].start) in m.used)
    && (forall id :: Owns(m.sys, id) ==> Names(m.sys, id) && PinnedBy(m.sys, id))
  }

  /** A step other than the owner's own `unpin` leaves the owner, as long as it lives,
      in possession: same owner file, same pins. */
  ghost predicate Undisturbed(s: Sys, t: Sys, id: Id) {
    Owns(s, id) && Alive(t.procs, id) ==>
      && id in t.holders && t.ownerFile == s.ownerFile && t.maps == s.maps
      && forall name :: name in s.maps ==> name in Entries(t.pins) && Entries(t.pins)[name] == id
  }

  /** On an owned interface, the step could not read the owner file or /proc where it looks
      for a live owner, took the owner for missing or dead, and one of its removals goes
      through: `pin` removes a name or the owner file, a cleanup the owner file, and
      `detach` the same after it has given up on the owner. */
  predicate Overlooks(s: Sys, a: Action) {
    match a
    case Pin(_, env) =>
      && !env.sight.Full() && env.death != 0
      && (!(s.maps !! env.reclaimed) || (env.sight.file && env.death != 1 && env.unlinkOk))
    case Cleanup(env) => !env.sight.Full() && env.unlinkOk
    case Detach(stop, env) => (!stop.sight.file || GivesUp(stop)) && !env.sight.Full() && env.unlinkOk
    case _ => false
  }

  // ----- Steps that do not overlook the owner -----

  /** An owner that is named and has its pins is a live owner, in a pin directory. */
  lemma OwnerOnRecord(m: Moment, id: Id)
    requires Inv(m) && Owns(m.sys, id)
    ensures Names(m.sys, id) && LiveOwner(m.sys) && m.sys.pins.Dir? && m.sys.maps <= m.sys.pins.entries.Keys
  {
    var name :| name in m.sys.maps;
    assert name in Entries(m.sys.pins);
  }

  lemma PinUndisturbed(m: Moment, n: Moment, self: Id, env: PinEnv, r: PinResult, id: Id)
    requires Inv(m) && Alive(m.sys.procs, self) && Recordable(self)
    requires PinPost(m.sys, n.sys, self, env, r) && Owns(m.sys, id) && !Overlooks(m.sys, Pin(self, env))
    ensures r != Pinned && Undisturbed(m.sys, n.sys, id)
  {
    OwnerOnRecord(m, id);
    assert Entries(n.sys.pins) == Entries(m.sys.pins);
  }

  lemma PinStep(m: Moment, n: Moment, self: Id, env: PinEnv, r: PinResult)
    requires Inv(m) && n.used == m.used && Alive(m.sys.procs, self) && Recordable(self)
    requires PinPost(m.sys, n.sys, self, env, r) && (Owned(m.sys) ==> !Overlooks(m.sys, Pin(self, env)))
    ensures Inv(n)
    ensures forall id :: Undisturbed(m.sys, n.sys, id)
  {
    var s, t := m.sys, n.sys;
    forall id | Owns(s, id) ensures r != Pinned && Undisturbed(s, t, id) {
      PinUndisturbed(m, n, self, env, r, id);
    }
    forall id | Owns(t, id) ensures Names(t, id) && PinnedBy(t, id) {
      if id in s.holders {
        assert Owns(s, id) && Undisturbed(s, t, id);
      }
    }
    assert self in m.used by {
      assert self == Id(self.pid, s.procs[self.pid].start);
    }
  }

  lemma UnpinStep(m: Moment, n: Moment, self: Id, env: UnpinEnv, died: bool)
    requires Inv(m) && n.used == m.used && Owns(m.sys, self)
    requires UnpinPost(m.sys, n.sys, self, env, died)
    ensures Inv(n)
    ensures forall id :: id != self ==> Undisturbed(m.sys, n.sys, id)
  {
    forall id | Owns(m.sys, id) ensures id == self {
      assert Names(m.sys, id) && Names(m.sys, self);
    }
    forall id ensures !Owns(n.sys, id) {
      if Owns(n.sys, id) {
        assert Owns(m.sys, id);
      }
    }
  }

  lemma CleanupStep(m: Moment, n: Moment, env: CleanupEnv, r: CleanupResult)
    requires Inv(m) && n.used == m.used
    requires CleanupPost(m.sys, n.sys, env, r) && (Owned(m.sys) ==> !Overlooks(m.sys, Cleanup(env)))
    ensures Inv(n)
    ensures forall id :: Undisturbed(m.sys, n.sys, id)
  {
    forall id | Owns(m.sys, id) ensures n.sys == m.sys {
      OwnerOnRecord(m, id);
    }
    forall id | Owns(n.sys, id) ensures Names(n.sys, id) && PinnedBy(n.sys, id) {
      assert Owns(m.sys, id);
    }
  }

  lemma StopStep(m: Moment, n: Moment, stop: StopEnv)
    requires Inv(m) && n.used == m.used && OwnerStopped(m.sys, n.sys, stop)
    ensures Inv(n)
    ensures forall id :: Undisturbed(m.sys, n.sys, id)
    ensures n.sys.maps == m.sys.maps
  {
    if n.sys != m.sys {
      forall id | Owns(m.sys, id) ensures !Alive(n.sys.procs, id) {
        assert Names(m.sys, id);
      }
      forall id | Owns(n.sys, id) ensures Owns(m.sys, id) {
      }
    }
  }

  /** A cleanup that `detach` reaches finds no owner, or does not overlook it. */
  lemma DetachStep(m: Moment, n: Moment, stop: StopEnv, env: CleanupEnv, r: DetachResult)
    requires Inv(m) && n.used == m.used && DetachPost(m.sys, n.sys, stop, env, r)
    requires Owned(m.sys) ==> !Overlooks(m.sys, Detach(stop, env))
    ensures Inv(n)
    ensures forall id :: Undisturbed(m.sys, n.sys, id)
  {
    if r == PermissionDenied || r == StopFailed {
      StopStep(m, n, stop);
    } else {
      var mid, c :| DetachVia(m.sys, mid, n.sys, stop, env, c, r);
      var k := m.(sys := mid);
      StopStep(m, k, stop);
      if Owned(mid) {
        var id :| Owns(mid, id);
        OwnerOnRecord(k, id);
        assert mid == m.sys && LiveOwner(mid);
        assert !Overlooks(mid, Cleanup(env));
      }
      CleanupStep(k, n, env, c);
      forall id ensures Undisturbed(m.sys, n.sys, id) {
        assert Undisturbed(m.sys, mid, id) && Undisturbed(mid, n.sys, id);
      }
    }
  }

  lemma ProcessStep(m: Moment, a: Action, n: Moment)
    requires Inv(m) && Next(m, a, n) && (a.Spawn? || a.Exit?)
    ensures Inv(n)
    ensures forall id :: Undisturbed(m.sys, n.sys, id)
  {
    forall id | Owns(n.sys, id) ensures Owns(m.sys, id) {
      assert id in m.used;
    }
    forall id | Owns(m.sys, id) ensures Names(m.sys, id) && PinnedBy(m.sys, id) {
    }
  }

  lemma StepKeepsInv(m: Moment, a: Action, n: Moment)
    requires Inv(m) && Next(m, a, n) && (Owned(m.sys) ==> !Overlooks(m.sys, a))
    ensures Inv(n) && KeepsOwners(m, a, n)
  {
    match a
    case Spawn(_) => ProcessStep(m, a, n);
    case Exit(_, _) => ProcessStep(m, a, n);
    case Pin(self, env) =>
      var r :| PinPost(m.sys, n.sys, self, env, r);
      PinStep(m, n, self, env, r);
    case Unpin(self, env) =>
      var died :| UnpinPost(m.sys, n.sys, self, env, died);
      UnpinStep(m, n, self, env, died);
    case Cleanup(env) =>
      var r :| CleanupPost(m.sys, n.sys, env, r);
      CleanupStep(m, n, env, r);
    case Detach(stop, env) =>
      var r :| DetachPost(m.sys, n.sys, stop, env, r);
      DetachStep(m, n, stop, env, r);
  }

  // ----- Steps that do -----

  lemma PinDisturbs(m: Moment, n: Moment, self: Id, env: PinEnv, r: PinResult, id: Id)
    requires Inv(m) && PinPost(m.sys, n.sys, self, env, r) && Alive(m.sys.procs, self)
    requires Owns(m.sys, id) && id != self && Overlooks(m.sys, Pin(self, env))
    ensures !Undisturbed(m.sys, n.sys, id)
  {
    OwnerOnRecord(m, id);
    if !(m.sys.maps !! env.reclaimed) {
      var name :| name in m.sys.maps && name in env.reclaimed;
      assert name in m.sys.maps * env.reclaimed;
    }
  }

  /** A step of another process that overlooks the owner does disturb it. */
  lemma StepDisturbs(m: Moment, a: Action, n: Moment, id: Id)
    requires Inv(m) && Next(m, a, n) && Owns(m.sys, id) && Overlooks(m.sys, a)
    requires !(a.Pin? && a.self == id)
    ensures !Undisturbed(m.sys, n.sys, id)
  {
    OwnerOnRecord(m, id);
    match a
    case Pin(self, env) =>
      var r :| PinPost(m.sys, n.sys, self, env, r);
      PinDisturbs(m, n, self, env, r, id);
    case Cleanup(env) =>
      var r :| CleanupPost(m.sys, n.sys, env, r);
    case Detach(stop, env) =>
      var r :| DetachPost(m.sys, n.sys, stop, env, r);
      var mid, c :| DetachVia(m.sys, mid, n.sys, stop, env, c, r);
  }

  // ----- Whole runs -----

  /** None of the first `k` steps overlooks an owner. */
  ghost predicate Sighted(trace: seq<Moment>, acts: seq<Action>, k: nat)
    requires |trace| == |acts| + 1 && k <= |acts|
  {
    forall i :: 0 <= i < k ==> Owned(trace[i].sys) ==> !Overlooks(trace[i].sys, acts[i])
  }

  lemma {:induction false} RunKeepsInv(trace: seq<Moment>, acts: seq<Action>, i: nat)
    requires IsRun(trace, acts) && i <= |acts| && Sighted(trace, acts, i)
    ensures Inv(trace[i])
  {
    if i > 0 {
      RunKeepsInv(trace, acts, i - 1);
      StepKeepsInv(trace[i - 1], acts[i - 1], trace[i]);
    }
  }

  /** As long as no step overlooks an owner, at most one live process holds the interface,
      and the owner file names it. */
  lemma SingleOwner(trace: seq<Moment>, acts: seq<Action>, i: nat, a: Id, b: Id)
    requires IsRun(trace, acts) && i <= |acts| && Sighted(trace, acts, i)
    requires Owns(trace[i].sys, a) && Owns(trace[i].sys, b)
    ensures a == b && Names(trace[i].sys, a) && PinnedBy(trace[i].sys, a)
  {
    RunKeepsInv(trace, acts, i);
  }

  /** And no other process takes the interface from a live owner or removes its pins. */
  lemma OwnerUndisturbed(trace: seq<Moment>, acts: seq<Action>, i: nat, id: Id)
    requires IsRun(trace, acts) && i < |acts| && Sighted(trace, acts, i + 1)
    requires !(acts[i].Unpin? && acts[i].self == id)
    ensures Undisturbed(trace[i].sys, trace[i + 1].sys, id)
  {
    RunKeepsInv(trace, acts, i);
    StepKeepsInv(trace[i], acts[i], trace[i + 1]);
  }

  /** Nobody pins an interface it holds: the program pins once, when it starts
      (src/cli/commands/run.cpp:78, src/cli/commands/top.cpp:165). */
  ghost predicate PinsOnce(trace: seq<Moment>, acts: seq<Action>)
    requires |trace| == |acts| + 1
  {
    forall i :: 0 <= i < |acts| && acts[i].Pin? ==> acts[i].self !in trace[i].sys.holders
  }

  /** Every owner stays in possession, unless the step is its own `unpin`. */
  ghost predicate KeepsOwners(m: Moment, a: Action, n: Moment) {
    forall id :: !(a.Unpin? && a.self == id) ==> Undisturbed(m.sys, n.sys, id)
  }

  /** And so through all steps of the run. */
  ghost predicate AlwaysKeepsOwners(trace: seq<Moment>, acts: seq<Action>)
    requires |trace| == |acts| + 1
  {
    forall i :: 0 <= i < |acts| ==> KeepsOwners(trace[i], acts[i], trace[i + 1])
  }

  lemma FirstOverlooked(trace: seq<Moment>, acts: seq<Action>, k: nat) returns (i: nat)
    requires |trace| == |acts| + 1 && k <= |acts| && !Sighted(trace, acts, k)
    ensures i < k && Sighted(trace, acts, i) && Owned(trace[i].sys) && Overlooks(trace[i].sys, acts[i])
  {
    if Sighted(trace, acts, k - 1) {
      i := k - 1;
    } else {
      i := FirstOverlooked(trace, acts, k - 1);
    }
  }

  /** In every run, every owner stays in possession if and only if no step overlooks one. */
  lemma PossessionIff(trace: seq<Moment>, acts: seq<Action>)
    requires IsRun(trace, acts) && PinsOnce(trace, acts)
    ensures AlwaysKeepsOwners(trace, acts) <==> Sighted(trace, acts, |acts|)
  {
    if Sighted(trace, acts, |acts|) {
      forall i | 0 <= i < |acts| ensures KeepsOwners(trace[i], acts[i], trace[i + 1]) {
        RunKeepsInv(trace, acts, i);
        StepKeepsInv(trace[i], acts[i], trace[i + 1]);
      }
    } else {
      var i := FirstOverlooked(trace, acts, |acts|);
      var id :| Owns(trace[i].sys, id);
      RunKeepsInv(trace, acts, i);
      StepDisturbs(trace[i], acts[i], trace[i + 1], id);
      assert !KeepsOwners(trace[i], acts[i], trace[i + 1]);
    }
  }

  // ----- Crash recovery -----

  /** The pin path never turns into something that is not a directory. */
  lemma {:induction false} PathStaysUsable(trace: seq<Moment>, acts: seq<Action>, i: nat)
    requires IsRun(trace, acts) && i <= |acts| && !trace[0].sys.pins.NotADir?
    ensures !trace[i].sys.pins.NotADir?
  {
    if i > 0 {
      PathStaysUsable(trace, acts, i - 1);
      var m, a, n := trace[i - 1], acts[i - 1], trace[i];
      assert Next(m, a, n);
      match a
      case Detach(stop, env) =>
        var r :| DetachPost(m.sys, n.sys, stop, env, r);
        if r != PermissionDenied && r != StopFailed {
          var mid, c :| DetachVia(m.sys, mid, n.sys, stop, env, c, r);
        }
      case _ =>
    }
  }

  /** A process is alive once it is started, and no process with its pid is alive once it
      has died, whether or not it has been reaped. Others are not concerned. */
  lemma LifeAndDeath(m: Moment, a: Action, n: Moment, id: Id)
    requires Next(m, a, n)
    ensures a == Spawn(id) ==> Alive(n.sys.procs, id)
    ensures a.Exit? && a.pid == id.pid ==> !Alive(n.sys.procs, id)
    ensures (a.Spawn? && a.id.pid != id.pid) || (a.Exit? && a.pid != id.pid) ==>
      (Alive(n.sys.procs, id) <==> Alive(m.sys.procs, id))
  {
  }

  /** The owner file names the process: two positive numbers, the first of them an `int`. */
  lemma NamesIff(s: Sys, id: Id)
    ensures Names(s, id) <==>
      s.ownerFile == Holds(id.pid, id.start) && 0 < id.pid <= 2_147_483_647 && id.start > 0
  {
  }

  /** Recovery from the death itself: after the death of the process that the owner file
      names, reaped or not, a `pin` whose system calls succeed takes over exactly if it
      clears the names, a cleanup meets no active owner, and neither does a `detach`. */
  lemma DeathIsRecovered(m: Moment, id: Id, zombie: bool, n: Moment)
    requires Names(m.sys, id) && Next(m, Exit(id.pid, zombie), n) && !m.sys.pins.NotADir?
    ensures forall t, self, env, r :: Faultless(env) && PinPost(n.sys, t, self, env, r) ==>
      (r == Pinned <==> Entries(n.sys.pins).Keys * n.sys.maps <= env.reclaimed)
    ensures forall t, env, r :: CleanupPost(n.sys, t, env, r) ==>
      r != ActiveOwner && (env.CallsOk() && env.stuck == {} ==> r.Ok? && Clean(t))
    ensures forall t, stop, env, r :: DetachPost(n.sys, t, stop, env, r) ==> r != PermissionDenied && r != StopFailed
  {
    LifeAndDeath(m, Exit(id.pid, zombie), n, id);
    assert !LiveOwner(n.sys);
  }

  /** Whenever no live process is named as the owner, whatever deaths led there, a
      `pin` whose system calls succeed takes the interface over exactly if it clears
      the stale pins. It is then the owner on record, and the only one if no step so far
      has overlooked an owner. */
  lemma CrashRecovery(trace: seq<Moment>, acts: seq<Action>, i: nat, n: Moment, self: Id, env: PinEnv, r: PinResult)
    requires IsRun(trace, acts) && i <= |acts| && !trace[0].sys.pins.NotADir?
    requires !LiveOwner(trace[i].sys)
    requires Alive(trace[i].sys.procs, self) && Recordable(self) && Faultless(env)
    requires n.used == trace[i].used && PinPost(trace[i].sys, n.sys, self, env, r)
    ensures r == Pinned <==> Entries(trace[i].sys.pins).Keys * trace[i].sys.maps <= env.reclaimed
    ensures r == Pinned ==> Owns(n.sys, self) && Names(n.sys, self) && PinnedBy(n.sys, self)
    ensures r == Pinned && Sighted(trace, acts, i) ==> forall id :: Owns(n.sys, id) ==> id == self
  {
    PathStaysUsable(trace, acts, i);
    if r == Pinned && Sighted(trace, acts, i) {
      RunKeepsInv(trace, acts, i);
      forall id | Owns(n.sys, id) ensures id == self {
        if id in trace[i].sys.holders {
          assert Owns(trace[i].sys, id);
          OwnerOnRecord(trace[i], id);
        }
      }
    }
  }

  /** From a clean interface, a successful `pin` followed by its `unpin` gives the clean
      interface back. */
  lemma PinThenUnpin(s: Sys, t: Sys, u: Sys, self: Id, pinEnv: PinEnv, unpinEnv: UnpinEnv)
    requires Clean(s) && self !in s.holders
    requires PinPost(s, t, self, pinEnv, Pinned)
    requires UnpinPost(t, u, self, unpinEnv, false) && UnpinFaultless(s.maps, unpinEnv)
    ensures Clean(u) && u.holders == s.holders && u.procs == s.procs
  {
    assert forall name :: name in Entries(t.pins) ==> name in s.maps;
    assert s.maps * unpinEnv.removed == s.maps;
    assert Entries(u.pins) == map[];
  }

  // ----- Idempotent cleanup -----

  /** After a cleanup that returned Ok, an immediate second one changes nothing, and it
      returns Ok(false) exactly if none of its calls fails for another reason than that
      there is nothing to remove. */
  lemma CleanupIsIdempotent(s: Sys, t: Sys, u: Sys, env: CleanupEnv, again: CleanupEnv,
                            changed: bool, r: CleanupResult)
    requires CleanupPost(s, t, env, Ok(changed))
    requires CleanupPost(t, u, again, r)
    ensures u == t && (r == Ok(false) <==> again.CallsOk())
  {
    assert Clean(t);
  }

  /** The same holds of `detach`: after one that succeeded, a second one finds nothing to
      stop and nothing to clean. */
  lemma DetachIsIdempotent(s: Sys, t: Sys, u: Sys, stop: StopEnv, env: CleanupEnv,
                           stopAgain: StopEnv, again: CleanupEnv, first: DetachResult, second: DetachResult)
    requires DetachPost(s, t, stop, env, first) && first.Detached?
    requires DetachPost(t, u, stopAgain, again, second)
    ensures u == t && (second == Detached(false, false) <==> again.CallsOk())
  {
    var mid, c :| DetachVia(s, mid, t, stop, env, c, first);
    assert Clean(t) && !LiveOwner(t);
    var mid', c' :| DetachVia(t, mid', u, stopAgain, again, c', second);
    CleanupIsIdempotent(mid, t, u, env, again, first.changed, c');
  }
}
