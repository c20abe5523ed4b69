/** Who owns an interface (src/bpf/skeleton.cpp, src/bpf/pin_state.cpp,
    src/cli/commands/detach.cpp): the state one interface has in the file system and
    the process table, and what pinning, unpinning and cleaning up promise about it. */
module Ownership {

  const INT_MAX := 0x7fff_ffff

  /** A process: its pid and its start time, which tells it from later processes
      with the same pid. */
  datatype Id = Id(pid: int, start: nat)

  /** The line of /proc for one pid. */
  datatype Proc = Proc(start: nat, zombie: bool)

  datatype OwnerFile =
    | Missing
    | Garbage                        // created, or cut short, by a process that died
    | Holds(pid: int, start: nat)

  /** What is at the pin path: each pinned name and the process whose map it is. */
  datatype PinPath =
    | Absent
    | NotADir
    | Dir(entries: map<string, Id>)

  /** `maps`: the names of the program's maps. `strangers`: the owner directory holds
      other files. `holders`: the processes that completed `pin` and have not completed
      `unpin`, that is, whose `pinned_path` is set. */
  datatype Sys = Sys(
    maps: set<string>,
    pins: PinPath, ownerDir: bool, strangers: bool, ownerFile: OwnerFile,
    procs: map<int, Proc>, holders: set<Id>)

  datatype Option<T> = None | Some(value: T)

  /** `read_owner_state`, when the owner file can be opened */
  function ReadOwner(f: OwnerFile): Option<Id> {
    match f
    case Missing => None
    case Garbage => None
    case Holds(pid, start) => if pid <= 0 || pid > INT_MAX || start == 0 then None else Some(Id(pid, start))
  }

  /** `is_owner_alive`, when /proc can be read */
  predicate Alive(procs: map<int, Proc>, id: Id) {
    id.pid in procs && !procs[id.pid].zombie && procs[id.pid].start == id.start
  }

  predicate Recordable(id: Id) {
    0 < id.pid <= INT_MAX && id.start > 0
  }

  /** The owner file names a live process. */
  predicate LiveOwner(s: Sys) {
    ReadOwner(s.ownerFile).Some? && Alive(s.procs, ReadOwner(s.ownerFile).value)
  }

  function Entries(p: PinPath): map<string, Id> {
    if p.Dir? then p.entries else map[]
  }

  ghost predicate Names(s: Sys, id: Id) {
    ReadOwner(s.ownerFile) == Some(id)
  }

  /** Every map of the program is pinned, by `id`. */
  ghost predicate PinnedBy(s: Sys, id: Id) {
    forall name :: name in s.maps ==> name in Entries(s.pins) && Entries(s.pins)[name] == id
  }

  /** Every pin in `t` was there in `s`. */
  ghost predicate NothingAdded(s: Sys, t: Sys) {
    forall name :: name in Entries(t.pins) ==> name in Entries(s.pins) && Entries(t.pins)[name] == Entries(s.pins)[name]
  }

  /** Nothing but the program's own names differs. */
  ghost predicate OnlyMapsDiffer(maps: set<string>, a: PinPath, b: PinPath) {
    forall name :: name !in maps ==>
      (name in Entries(a) <==> name in Entries(b))
      && (name in Entries(a) ==> Entries(a)[name] == Entries(b)[name])
  }

  // ----- What the calls may meet -----

  /** Whether a call can open the owner file and read the owner's line of /proc. The
      program takes a file it cannot open for a missing one, and a process whose line it
      cannot read for a dead one. */
  datatype Sight = Sight(file: bool, proc: bool) {
    predicate Full() {
      file && proc
    }
  }

  function SeenOwner(s: Sys, sight: Sight): Option<Id> {
    if sight.file then ReadOwner(s.ownerFile) else None
  }

  /** There is a live owner and the call notices it. */
  predicate Sees(s: Sys, sight: Sight) {
    LiveOwner(s) && sight.Full()
  }

  /** What happens during `pin`: what it can read, which system calls succeed, which pins
      the reclaiming `unpin_maps` removes (none when the directory cannot be listed), which
      pins are left when `pin_maps` fails or the process dies in it, and after which step
      the process dies. `openOk`: it reads its own start time and opens the owner file. */
  datatype PinEnv = PinEnv(
    sight: Sight, mkdirOk: bool, reclaimed: set<string>, unlinkOk: bool,
    pinOk: bool, leftBehind: set<string>,
    parentOk: bool, openOk: bool, writeOk: bool, rolledBack: set<string>, rmdirOk: bool,
    death: nat)

  const LAST_STEP := 7

  /** Every system call but the reads and the reclaiming ones succeeds and the process survives. */
  predicate Faultless(env: PinEnv) {
    env.mkdirOk && env.pinOk && env.parentOk && env.openOk && env.writeOk && env.death > LAST_STEP
  }

  datatype PinResult = Pinned | Refused | Failed | Died

  // ----- The contracts -----

  /** The process table after a call by `self`: unchanged, or `self` is dead. */
  ghost predicate ProcsAfter(s: Sys, t: Sys, self: Id, died: bool) {
    if died then t.procs == s.procs - {self.pid} else t.procs == s.procs
  }

  ghost predicate PinPost(s: Sys, t: Sys, self: Id, env: PinEnv, r: PinResult) {
    && t.maps == s.maps
    && ProcsAfter(s, t, self, r == Died)
    && t.holders == (if r == Pinned then s.holders + {self} else s.holders)
    && OnlyMapsDiffer(s.maps, s.pins, t.pins)
    && (s.pins.NotADir? <==> t.pins.NotADir?)
    && t.strangers == s.strangers
    && (s.ownerDir ==> t.ownerDir)
    && (t.ownerFile != Missing ==> t.ownerDir || t.ownerFile == s.ownerFile)
    // a live owner that is seen is left alone
    && (Sees(s, env.sight) ==>
          r != Pinned && Entries(t.pins) == Entries(s.pins) && t.ownerFile == s.ownerFile)
    && (r == Refused ==> Sees(s, env.sight) && (env.rmdirOk ==> t.pins == s.pins))
    && (Faultless(env) && Sees(s, env.sight) && !s.pins.NotADir? ==> r == Refused)
    // failure is rolled back as far as the system calls allow
    && (r == Failed && s.maps <= env.rolledBack && env.leftBehind == {} ==> NothingAdded(s, t))
    && (r == Failed && env.unlinkOk ==> t.ownerFile == Missing || t.ownerFile == s.ownerFile)
    && (r == Failed && s.pins == Absent && env.rmdirOk && Entries(t.pins) == map[] ==> t.pins == Absent)
    && (s.pins.Dir? ==> t.pins.Dir?)
    // success is complete
    && (r == Pinned ==> PinnedBy(t, self) && Names(t, self) && t.ownerDir)
    // and, when nothing else goes wrong, it depends on clearing the stale pins alone
    && (Faultless(env) && !Sees(s, env.sight) && !s.pins.NotADir? ==>
          (r == Pinned <==> Entries(s.pins).Keys * s.maps <= env.reclaimed))
    && ReclaimingPost(s, t, self, env, r)
  }

  /** `pin` gets as far as looking for an owner. */
  predicate Looks(s: Sys, env: PinEnv) {
    (s.pins.Dir? || (s.pins.Absent? && env.mkdirOk)) && env.death != 0
  }

  /** Seeing no live owner, `pin` unlinks the owner file it has read. */
  predicate Unlinks(s: Sys, env: PinEnv) {
    SeenOwner(s, env.sight).Some? && env.death != 1 && env.unlinkOk
  }

  ghost predicate WrittenBy(f: OwnerFile, self: Id) {
    f == Missing || f == Garbage || f == Holds(self.pid, self.start)
  }

  /** What a `pin` that sees no live owner takes from whoever is there. */
  ghost predicate ReclaimingPost(s: Sys, t: Sys, self: Id, env: PinEnv, r: PinResult) {
    && (t.ownerFile == s.ownerFile || WrittenBy(t.ownerFile, self))
    && (!Looks(s, env) ==> r != Pinned && Entries(t.pins) == Entries(s.pins) && t.ownerFile == s.ownerFile)
    && (Looks(s, env) && !Sees(s, env.sight) ==>
          && (forall name :: name in s.maps * env.reclaimed && name in Entries(t.pins) ==>
                Entries(t.pins)[name] == self)
          && (Unlinks(s, env) ==> WrittenBy(t.ownerFile, self))
          // it cannot pin over names it did not remove
          && (s.maps != {} && s.maps <= Entries(s.pins).Keys && s.maps !! env.reclaimed ==>
                && r != Pinned && Entries(t.pins) == Entries(s.pins)
                && (!Unlinks(s, env) ==> t.ownerFile == s.ownerFile))
          && (env.death == 3 ==> r == Died && s.maps * env.leftBehind <= Entries(t.pins).Keys))
  }

  /** What happens during `unpin`. */
  datatype UnpinEnv = UnpinEnv(removed: set<string>, unlinkOk: bool, ownerRmdirOk: bool, rmdirOk: bool, death: nat)

  ghost predicate UnpinPost(s: Sys, t: Sys, self: Id, env: UnpinEnv, died: bool) {
    && ProcsAfter(s, t, self, died)
    && t.holders == (if died then s.holders else s.holders - {self})
    && UnpinFilesPost(s, t, env, died)
  }

  ghost predicate UnpinFilesPost(s: Sys, t: Sys, env: UnpinEnv, died: bool) {
    && t.maps == s.maps
    && OnlyMapsDiffer(s.maps, s.pins, t.pins)
    && (s.pins.NotADir? <==> t.pins.NotADir?)
    && NothingAdded(s, t)
    && (t.ownerFile == s.ownerFile || t.ownerFile == Missing)
    && t.strangers == s.strangers
    && (t.ownerFile != Missing ==> t.ownerDir == s.ownerDir)
    && (t.ownerDir ==> s.ownerDir)
    // a process that survives removes all that the system calls allow
    && (!died ==>
          && Entries(t.pins) == Entries(s.pins) - (s.maps * env.removed)
          && (env.unlinkOk ==> t.ownerFile == Missing)
          && (env.ownerRmdirOk && t.ownerFile == Missing && !s.strangers ==> !t.ownerDir)
          && (env.rmdirOk && Entries(t.pins) == map[] ==> !t.pins.Dir?))
  }

  predicate UnpinFaultless(maps: set<string>, env: UnpinEnv) {
    maps <= env.removed && env.unlinkOk && env.ownerRmdirOk && env.rmdirOk
  }

  datatype CleanupResult = ActiveOwner | Error | Ok(changed: bool)

  /** What happens during `cleanup_stale_state`: what it can read, which calls do not fail
      for another reason than that a name is missing or a directory not empty, and which
      entries are `stuck`, that is, cannot be unlinked. */
  datatype CleanupEnv = CleanupEnv(
    sight: Sight, unlinkOk: bool, ownerRmdirOk: bool, openOk: bool, stuck: set<string>, rmdirOk: bool)
  {
    predicate CallsOk() {
      unlinkOk && ownerRmdirOk && openOk && rmdirOk
    }
  }

  /** Nothing of the interface is left but strangers' files in the owner directory. */
  ghost predicate Clean(s: Sys) {
    s.pins == Absent && s.ownerFile == Missing && (s.ownerDir ==> s.strangers)
  }

  ghost predicate CleanupPost(s: Sys, t: Sys, env: CleanupEnv, r: CleanupResult) {
    && t.maps == s.maps && t.procs == s.procs && t.holders == s.holders && t.strangers == s.strangers
    && (Sees(s, env.sight) <==> r == ActiveOwner)
    && (r == ActiveOwner ==> t == s)
    && (!Sees(s, env.sight) ==> if env.unlinkOk then t.ownerFile == Missing else t == s)
    && (s.pins.NotADir? <==> t.pins.NotADir?)
    && (t.ownerFile == s.ownerFile || t.ownerFile == Missing)
    && (t.ownerFile != Missing ==> t.ownerDir == s.ownerDir)
    && (t.ownerDir ==> s.ownerDir)
    && (s.ownerDir && s.strangers ==> t.ownerDir)
    && NothingAdded(s, t)
    && (r.Ok? ==> Clean(t) && (r.changed <==> t != s))
    && (Clean(s) ==> t == s && (r == Ok(false) <==> env.CallsOk()))
    && (env.CallsOk() && env.stuck == {} && !Sees(s, env.sight) && !s.pins.NotADir? ==> r.Ok?)
  }

  // ----- Stopping the owner -----

  /** How sending a signal ends. */
  datatype Signal = Sent | NoSuchProcess | NotPermitted | NotSent

  /** The owner `o` shuts down: it may first remove its pins, its owner file and the
      directories, completely or in part, and then it is gone. */
  ghost predicate ShutDown(s: Sys, t: Sys, o: Id) {
    && t.maps == s.maps && t.strangers == s.strangers
    && t.procs == s.procs - {o.pid}
    && s.holders - {o} <= t.holders <= s.holders
    && (s.pins.NotADir? <==> t.pins.NotADir?)
    && NothingAdded(s, t)
    && (t.ownerFile == s.ownerFile || t.ownerFile == Missing)
  }

  /** What happens while the owner is stopped: whether `detach` can open the owner file and
      `stop_owner_process` first read /proc, how each signal ends, after which poll the
      owner exits, at which poll /proc cannot be read, and whether the owner unpins on its
      way out. */
  datatype StopEnv = StopEnv(
    sight: Sight,
    term: Signal, termPoll: nat, termBlind: nat,
    kill: Signal, killPoll: nat, killBlind: nat,
    unpins: bool, unpin: UnpinEnv)

  const STEP_US := 100_000
  const TERM_US := 2_000_000
  const KILL_US := 1_000_000

  /** Waiting up to `timeoutUs` ends because /proc could not be read while the owner was
      still alive. */
  predicate BlindFirst(timeoutUs: nat, exitPoll: nat, blindPoll: nat) {
    blindPoll <= exitPoll && blindPoll * STEP_US < timeoutUs + STEP_US
  }

  /** `stop_owner_process` takes a live owner for gone. */
  predicate GivesUp(stop: StopEnv) {
    || !stop.sight.proc
    || (stop.term == Sent && BlindFirst(TERM_US, stop.termPoll, stop.termBlind))
    || (&& stop.term == Sent && stop.termPoll * STEP_US >= TERM_US
        && (stop.kill == Sent || stop.kill == NoSuchProcess)
        && BlindFirst(KILL_US, stop.killPoll, stop.killBlind))
  }

  /** In polls: up to twenty after SIGTERM and ten after SIGKILL, and one last look each. */
  lemma GivesUpIff(stop: StopEnv)
    ensures GivesUp(stop) <==>
      || !stop.sight.proc
      || (stop.term == Sent && stop.termBlind <= stop.termPoll && stop.termBlind <= 20)
      || (&& stop.term == Sent && stop.termPoll >= 20 && (stop.kill == Sent || stop.kill == NoSuchProcess)
          && stop.killBlind <= stop.killPoll && stop.killBlind <= 10)
  {
  }

  /** `stop_owner_process` on the process `o` that the owner file names: nothing
      happened, or `o` was alive and shut down. */
  ghost predicate StopPost(s: Sys, t: Sys, o: Id) {
    t == s || (Alive(s.procs, o) && ShutDown(s, t, o))
  }

  datatype DetachResult =
    | PermissionDenied
    | StopFailed
    | CleanupFailed
    | Detached(stopped: bool, changed: bool)

  /** The live owner is not overlooked while it is being stopped. */
  predicate Pursues(s: Sys, stop: StopEnv) {
    LiveOwner(s) && stop.sight.file && !GivesUp(stop)
  }

  /** `cmd_detach` up to the cleanup: unless it overlooks the owner, it cleans up only
      after the owner is gone, and then leaves nothing of the interface. */
  ghost predicate DetachPost(s: Sys, t: Sys, stop: StopEnv, env: CleanupEnv, r: DetachResult) {
    if r == PermissionDenied || r == StopFailed then Pursues(s, stop) && OwnerStopped(s, t, stop)
    else exists mid, c :: DetachVia(s, mid, t, stop, env, c, r)
  }

  /** The same, the owner having been stopped in state `mid`. */
  ghost predicate DetachVia(s: Sys, mid: Sys, t: Sys, stop: StopEnv, env: CleanupEnv,
                            c: CleanupResult, r: DetachResult) {
    && OwnerStopped(s, mid, stop) && CleanupPost(mid, t, env, c)
    && (Pursues(s, stop) ==> !LiveOwner(mid))
    && (if r.Detached? then c == Ok(r.changed) && (r.stopped ==> LiveOwner(s)) else r == CleanupFailed && !c.Ok?)
  }

  ghost predicate OwnerStopped(s: Sys, t: Sys, stop: StopEnv) {
    if Pursues(s, stop) then StopPost(s, t, ReadOwner(s.ownerFile).value) else t == s
  }
}
