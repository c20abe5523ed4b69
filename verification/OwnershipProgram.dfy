/** `Skeleton::pin`, `Skeleton::unpin`, `cleanup_stale_state` and `cmd_detach`, step by
    step. A process may die after any step of `pin` and `unpin`. */
module OwnershipProgram {
  import opened Ownership

  datatype StopResult = Stopped(signalled: bool) | Permission | SignalError | StillAlive

  /** Nothing of the program's names is left exactly when all that was there went. */
  lemma Cleared(before: set<string>, after: set<string>, maps: set<string>, removed: set<string>)
    requires after * maps == before * maps - removed
    ensures after !! maps <==> before * maps <= removed
  {
    if after !! maps {
      forall name | name in before * maps ensures name in removed {
        assert name !in after * maps;
      }
    } else {
      var name :| name in after && name in maps;
      assert name in after * maps;
    }
  }

  /** What reclaiming does: it removes names and perhaps the owner file, whoever's they are. */
  function Reclaimed(s: Sys, env: PinEnv): Sys
    requires s.pins.Dir?
  {
    s.(pins := Dir(s.pins.entries - (s.maps * env.reclaimed)),
       ownerFile := if Unlinks(s, env) then Missing else s.ownerFile)
  }

  /** Every pin in `after` is the process's own or was there before. */
  ghost predicate OwnOrKept(before: map<string, Id>, after: map<string, Id>, self: Id) {
    forall name :: name in after ==> after[name] == self || (name in before && after[name] == before[name])
  }

  /** A pin directory that was there stays; one that was created goes again if `pin` fails
      and it is empty. */
  ghost predicate DirAfter(t: Sys, created: bool, env: PinEnv, r: PinResult) {
    && (!created ==> t.pins.Dir?)
    && (created && r == Failed && env.rmdirOk && Entries(t.pins) == map[] ==> t.pins == Absent)
  }

  /** What pinning the maps and recording the owner in the pin directory may do. */
  ghost predicate RecordPost(s: Sys, t: Sys, self: Id, created: bool, env: PinEnv, r: PinResult)
    requires s.pins.Dir?
  {
    && DirAfter(t, created, env, r)
    && t.maps == s.maps && t.procs == s.procs && t.strangers == s.strangers
    && r != Refused && t.holders == (if r == Pinned then s.holders + {self} else s.holders)
    && !t.pins.NotADir? && (s.ownerDir ==> t.ownerDir)
    && OnlyMapsDiffer(s.maps, s.pins, t.pins)
    && OwnOrKept(s.pins.entries, Entries(t.pins), self)
    && (t.ownerFile == s.ownerFile || WrittenBy(t.ownerFile, self))
    && (r == Failed && s.maps <= env.rolledBack && env.leftBehind == {} ==> NothingAdded(s, t))
    && (r == Failed && env.unlinkOk ==> t.ownerFile == s.ownerFile || t.ownerFile == Missing)
    && (r == Pinned ==> PinnedBy(t, self) && Names(t, self) && s.pins.entries.Keys !! s.maps)
    && (Faultless(env) ==> (r == Pinned <==> s.pins.entries.Keys !! s.maps))
    && (!(s.pins.entries.Keys !! s.maps) ==> t.ownerFile == s.ownerFile)
    && (s.maps != {} && s.maps <= s.pins.entries.Keys ==> Entries(t.pins) == s.pins.entries)
    && (env.death == 3 ==> r == Died && s.maps * env.leftBehind <= Entries(t.pins).Keys)
  }

  /** What recording the owner may do to the owner file. */
  ghost predicate FilePost(s: Sys, t: Sys, self: Id, env: PinEnv, r: PinResult) {
    && t == s.(ownerDir := t.ownerDir, ownerFile := t.ownerFile)
    && (s.ownerDir ==> t.ownerDir)
    && r != Refused
    && (t.ownerFile == s.ownerFile || WrittenBy(t.ownerFile, self))
    && (r == Pinned ==> Names(t, self))
    && (r == Failed && env.unlinkOk ==> t.ownerFile == s.ownerFile || t.ownerFile == Missing)
    && (env.parentOk && env.openOk && env.writeOk && env.death > LAST_STEP ==> r == Pinned)
  }

  /** What `pin_maps` may leave, whether it succeeds, fails or is cut short. */
  ghost predicate PinMapsPost(s: Sys, t: Sys, self: Id, env: PinEnv, done: bool)
    requires s.pins.Dir?
  {
    && t == s.(pins := t.pins) && !t.pins.NotADir?
    && OnlyMapsDiffer(s.maps, s.pins, t.pins) && OwnOrKept(s.pins.entries, Entries(t.pins), self)
    && s.maps * env.leftBehind <= Entries(t.pins).Keys
    && (!done && (env.leftBehind == {} || s.maps <= s.pins.entries.Keys) ==> Entries(t.pins) == s.pins.entries)
    && (done ==> s.pins.entries.Keys !! s.maps && PinnedBy(t, self))
    && (env.pinOk && env.death != 3 ==> (done <==> s.pins.entries.Keys !! s.maps))
  }

  /** The process dies there, or `pin_maps` failed. */
  lemma UnrecordedPost(s: Sys, t: Sys, self: Id, created: bool, env: PinEnv, done: bool, r: PinResult)
    requires DirAfter(t, created, env, r)
    requires s.pins.Dir? && PinMapsPost(s, t, self, env, done)
    requires (r == Died && (env.death == 3 || env.death == 4)) || (r == Failed && env.death != 3 && !done)
    ensures RecordPost(s, t, self, created, env, r)
  {
  }

  /** All maps are pinned over a directory that held none of the names. */
  ghost predicate FreshlyPinned(before: Sys, s: Sys, self: Id) {
    && before.pins.Dir? && s.pins.Dir? && s == before.(pins := s.pins)
    && before.pins.entries.Keys !! s.maps && PinnedBy(s, self)
    && OnlyMapsDiffer(s.maps, before.pins, s.pins) && OwnOrKept(before.pins.entries, s.pins.entries, self)
  }

  /** The owner file was written, or the process died over it. */
  lemma RecordedPost(before: Sys, s: Sys, t: Sys, self: Id, created: bool, env: PinEnv, r: PinResult)
    requires FreshlyPinned(before, s, self) && env.death != 3
    requires FilePost(s, t, self, env, r) && r != Failed
    ensures RecordPost(before, t.(holders := if r == Pinned then t.holders + {self} else t.holders),
                       self, created, env, r)
  {
  }

  /** It was not, and the pins were rolled back. */
  lemma RolledBackPost(before: Sys, s: Sys, f: Sys, t: Sys, self: Id, created: bool, env: PinEnv)
    requires DirAfter(t, created, env, Failed)
    requires FreshlyPinned(before, s, self) && env.death != 3
    requires FilePost(s, f, self, env, Failed)
    requires t == f.(pins := t.pins) && !t.pins.NotADir?
    requires Entries(t.pins) == s.pins.entries - (s.maps * env.rolledBack)
    ensures RecordPost(before, t, self, created, env, Failed)
  {
  }

  lemma ClearedExactly(entries: map<string, Id>, maps: set<string>, removed: set<string>)
    ensures (entries - (maps * removed)).Keys !! maps <==> entries.Keys * maps <= removed
  {
    var after := entries - (maps * removed);
    assert after.Keys * maps == entries.Keys * maps - removed;
    Cleared(entries.Keys, after.Keys, maps, removed);
  }

  /** Dying while reclaiming keeps what `pin` promises. */
  lemma DeathPost(before: Sys, s: Sys, self: Id, env: PinEnv)
    requires s == before.(pins := s.pins) && s.pins.Dir? && Entries(s.pins) == Entries(before.pins)
    requires !Sees(before, env.sight) && Looks(before, env) && (env.death == 1 || env.death == 2)
    ensures var t := Reclaimed(s, env); PinPost(before, t.(procs := t.procs - {self.pid}), self, env, Died)
  {
    assert before.maps !! env.reclaimed ==> s.pins.entries - (s.maps * env.reclaimed) == s.pins.entries;
  }

  /** Reclaiming, then pinning and recording, keep what `pin` promises. */
  lemma TakeOverPost(before: Sys, s: Sys, mid: Sys, t: Sys, after: Sys, self: Id, created: bool,
                     env: PinEnv, r: PinResult)
    requires created <==> before.pins == Absent
    requires s == before.(pins := s.pins) && s.pins.Dir? && Entries(s.pins) == Entries(before.pins)
    requires !Sees(before, env.sight) && Looks(before, env)
    requires mid == Reclaimed(s, env) && RecordPost(mid, t, self, created, env, r)
    requires t.ownerFile != Missing ==> t.ownerDir
    requires after == if r == Died then t.(procs := t.procs - {self.pid}) else t
    ensures PinPost(before, after, self, env, r)
  {
    ClearedExactly(s.pins.entries, s.maps, env.reclaimed);
    TakeOverRemoves(before, s, mid, t, self, created, env, r);
  }

  lemma TakeOverRemoves(before: Sys, s: Sys, mid: Sys, t: Sys, self: Id, created: bool, env: PinEnv, r: PinResult)
    requires s == before.(pins := s.pins) && s.pins.Dir? && Entries(s.pins) == Entries(before.pins)
    requires !Sees(before, env.sight) && Looks(before, env)
    requires mid == Reclaimed(s, env) && RecordPost(mid, t, self, created, env, r)
    ensures ReclaimingPost(before, t, self, env, r)
  {
    if s.maps !! env.reclaimed {
      assert mid.pins.entries == s.pins.entries;
    }
  }

  class Interface {
    const maps: set<string>
    var pins: PinPath
    var ownerDir: bool
    var strangers: bool
    var ownerFile: OwnerFile
    var procs: map<int, Proc>
    var holders: set<Id>

    function State(): Sys
      reads this
    {
      Sys(maps, pins, ownerDir, strangers, ownerFile, procs, holders)
    }

    /** The owner file lies in the owner directory, and so do strangers' files. */
    ghost predicate Valid()
      reads this
    {
      (ownerFile != Missing || strangers) ==> ownerDir
    }

    constructor (maps: set<string>, procs: map<int, Proc>)
      ensures this.maps == maps && Valid()
      ensures State() == Sys(maps, Absent, false, false, Missing, procs, {})
    {
      this.maps := maps;
      pins, ownerDir, strangers, ownerFile := Absent, false, false, Missing;
      this.procs, holders := procs, {};
    }

    /** `bpf_object__unpin_maps`, which may stop early. */
    method UnpinMaps(removed: set<string>)
      modifies `pins
      ensures pins == if old(pins).Dir? then Dir(old(pins).entries - (maps * removed)) else old(pins)
    {
      if pins.Dir? {
        pins := Dir(pins.entries - (maps * removed));
      }
    }

    method RemoveIfEmpty(ok: bool)
      modifies `pins
      ensures pins == old(pins) || (old(pins) == Dir(map[]) && pins == Absent)
      ensures ok && old(pins) == Dir(map[]) ==> pins == Absent
    {
      if ok && pins == Dir(map[]) {
        pins := Absent;
      }
    }

    method Die(self: Id)
      modifies `procs
      ensures procs == old(procs) - {self.pid}
    {
      procs := procs - {self.pid};
    }

    /** `bpf_object__pin_maps`: pins every map, or leaves some behind and fails. It
        cannot succeed over a pin that is still there. */
    method PinMaps(self: Id, env: PinEnv) returns (done: bool)
      requires pins.Dir?
      modifies `pins
      ensures pins.Dir? && PinMapsPost(old(State()), State(), self, env, done)
    {
      done := env.pinOk && env.death != 3 && pins.entries.Keys !! maps;
      var added := if done then maps else env.leftBehind * maps - pins.entries.Keys;
      assert added == {} ==> pins.entries + (map name | name in added :: self) == pins.entries;
      pins := Dir(pins.entries + (map name | name in added :: self));
    }

    /** The rollback of a failed `pin`. */
    method RollBack(created: bool, env: PinEnv)
      requires pins.Dir?
      modifies `pins
      ensures pins != NotADir && OnlyMapsDiffer(maps, old(pins), pins)
      ensures Entries(pins) == old(pins).entries - (maps * env.rolledBack)
      ensures DirAfter(State(), created, env, Failed)
    {
      UnpinMaps(env.rolledBack);
      if created {
        RemoveIfEmpty(env.rmdirOk);
      }
    }

    /** `ensure_owner_pid_parent` and `write_owner_pid_file` */
    method RecordOwner(self: Id, env: PinEnv) returns (r: PinResult)
      requires Valid() && Recordable(self)
      modifies `ownerDir, `ownerFile
      ensures Valid()
      ensures FilePost(old(State()), State(), self, env, r)
    {
      if !env.parentOk {
        return Failed;
      }
      ownerDir := true;
      if env.death == 5 {
        return Died;
      }
      if !env.openOk {
        return Failed;
      }
      ownerFile := Garbage;
      if env.death == 6 {
        return Died;
      }
      if !env.writeOk {
        if env.unlinkOk {
          ownerFile := Missing;
        }
        return Failed;
      }
      ownerFile := Holds(self.pid, self.start);
      return if env.death == 7 then Died else Pinned;
    }

    /** The part of `pin` after the owner check. */
    method PinAndRecord(self: Id, created: bool, env: PinEnv) returns (r: PinResult)
      requires Valid() && pins.Dir? && Recordable(self)
      modifies `pins, `ownerDir, `ownerFile, `holders
      ensures Valid()
      ensures RecordPost(old(State()), State(), self, created, env, r)
    {
      var done := PinMaps(self, env);
      if env.death == 3 || env.death == 4 {
        UnrecordedPost(old(State()), State(), self, created, env, done, Died);
        return Died;
      }
      if !done {
        if created {
          RemoveIfEmpty(env.rmdirOk);
        }
        UnrecordedPost(old(State()), State(), self, created, env, done, Failed);
        return Failed;
      }
      r := RecordOrRollBack(self, created, env, old(State()));
    }

    /** The last part of `pin`; `before` is the state before the maps were pinned. */
    method RecordOrRollBack(self: Id, created: bool, env: PinEnv, ghost before: Sys) returns (r: PinResult)
      requires Valid() && Recordable(self) && FreshlyPinned(before, State(), self) && env.death != 3
      modifies `pins, `ownerDir, `ownerFile, `holders
      ensures Valid()
      ensures RecordPost(before, State(), self, created, env, r)
    {
      r := RecordOwner(self, env);
      ghost var f := State();
      if r == Failed {
        RollBack(created, env);
        RolledBackPost(before, old(State()), f, State(), self, created, env);
        return;
      }
      if r == Pinned {
        holders := holders + {self};
      }
      RecordedPost(before, old(State()), f, self, created, env, r);
    }

    /** The part of `pin` that reclaims what it takes for stale. */
    method Reclaim(env: PinEnv) returns (died: bool)
      requires Valid() && pins.Dir? && !Sees(State(), env.sight)
      modifies `pins, `ownerFile
      ensures Valid()
      ensures State() == Reclaimed(old(State()), env)
      ensures died ==> env.death == 1 || env.death == 2
    {
      var owner := if env.sight.file then ReadOwner(ownerFile) else None;
      if owner.Some? {
        UnpinMaps(env.reclaimed);
        if env.death == 1 {
          return true;
        }
        if env.unlinkOk {
          ownerFile := Missing;
        }
      } else if pins.entries != map[] {
        UnpinMaps(env.reclaimed);
      } else {
        assert pins.entries - (maps * env.reclaimed) == map[];
      }
      return env.death == 2;
    }

    /** The start of `pin`: make the pin directory unless it is there. */
    method EnsurePinDir(mkdirOk: bool) returns (ok: bool, created: bool)
      modifies `pins
      ensures Entries(pins) == Entries(old(pins)) && (pins.NotADir? <==> old(pins).NotADir?)
      ensures pins == (if created then Dir(map[]) else old(pins)) && (created ==> ok && old(pins) == Absent)
      ensures ok ==> pins.Dir?
      ensures ok <==> old(pins).Dir? || (old(pins).Absent? && mkdirOk)
    {
      match pins
      case Absent =>
        if mkdirOk {
          pins := Dir(map[]);
        }
        return mkdirOk, mkdirOk;
      case NotADir => return false, false;
      case Dir(_) => return true, false;
    }

    /** `pin` once the pin directory is there; `before` is the state it started from. */
    method PinInDir(self: Id, created: bool, env: PinEnv, ghost before: Sys) returns (r: PinResult)
      requires Valid() && pins.Dir? && Recordable(self)
      requires State() == before.(pins := pins) && Entries(pins) == Entries(before.pins)
      requires if created then pins == Dir(map[]) && before.pins == Absent else pins == before.pins
      requires Looks(before, env)
      modifies this
      ensures Valid()
      ensures PinPost(before, State(), self, env, r)
    {
      var owner := if env.sight.file then ReadOwner(ownerFile) else None;
      if owner.Some? && env.sight.proc && Alive(procs, owner.value) {
        if created {
          RemoveIfEmpty(env.rmdirOk);
        }
        return Refused;
      }
      r := TakeOver(self, created, env, before);
    }

    /** The same, when it sees no live owner. */
    method TakeOver(self: Id, created: bool, env: PinEnv, ghost before: Sys) returns (r: PinResult)
      requires Valid() && pins.Dir? && Recordable(self)
      requires State() == before.(pins := pins) && Entries(pins) == Entries(before.pins)
      requires !Sees(before, env.sight) && Looks(before, env) && (created <==> before.pins == Absent)
      modifies this
      ensures Valid()
      ensures PinPost(before, State(), self, env, r)
    {
      ghost var s := State();
      var died := Reclaim(env);
      if died {
        Die(self);
        DeathPost(before, s, self, env);
        return Died;
      }
      ghost var mid := State();
      r := PinAndRecord(self, created, env);
      ghost var t := State();
      if r == Died {
        Die(self);
      }
      TakeOverPost(before, s, mid, t, State(), self, created, env, r);
    }

    /** `Skeleton::pin` */
    method Pin(self: Id, env: PinEnv) returns (r: PinResult)
      requires Valid() && Alive(procs, self) && Recordable(self)
      modifies this
      ensures Valid()
      ensures PinPost(old(State()), State(), self, env, r)
    {
      var ok, created := EnsurePinDir(env.mkdirOk);
      if !ok {
        return Failed;
      }
      if env.death == 0 {
        Die(self);
        return Died;
      }
      r := PinInDir(self, created, env, old(State()));
    }

    /** The owner file part of `unpin`. */
    method RemoveOwner(env: UnpinEnv) returns (died: bool)
      requires Valid()
      modifies `ownerFile, `ownerDir
      ensures Valid()
      ensures ownerFile == old(ownerFile) || ownerFile == Missing
      ensures ownerFile != Missing ==> ownerDir == old(ownerDir)
      ensures ownerDir ==> old(ownerDir)
      ensures !died && env.unlinkOk ==> ownerFile == Missing
      ensures !died && env.ownerRmdirOk && ownerFile == Missing && !strangers ==> !ownerDir
    {
      if env.unlinkOk {
        ownerFile := Missing;
      }
      if env.death == 1 {
        return true;
      }
      if env.ownerRmdirOk && ownerFile == Missing && !strangers {
        ownerDir := false;
      }
      return env.death == 2;
    }

    /** The file system part of `unpin`. */
    method UnpinFiles(env: UnpinEnv) returns (died: bool)
      requires Valid()
      modifies `pins, `ownerFile, `ownerDir
      ensures Valid()
      ensures UnpinFilesPost(old(State()), State(), env, died)
    {
      UnpinMaps(env.removed);
      if env.death == 0 {
        return true;
      }
      died := RemoveOwner(env);
      if died {
        return;
      }
      RemoveIfEmpty(env.rmdirOk);
      return env.death == 3;
    }

    /** `Skeleton::unpin`, called by a process whose `pinned_path` is set. */
    method Unpin(self: Id, env: UnpinEnv) returns (died: bool)
      requires Valid() && Alive(procs, self) && self in holders
      modifies this
      ensures Valid()
      ensures UnpinPost(old(State()), State(), self, env, died)
    {
      died := UnpinFiles(env);
      if died {
        Die(self);
      } else {
        holders := holders - {self};
      }
    }

    /** `remove_dir_entries`: unlinks every entry, stopping at one that cannot be. */
    method RemoveDirEntries(stuck: set<string>) returns (ok: bool)
      requires pins.Dir?
      modifies `pins
      ensures pins.Dir?
      ensures ok ==> pins.entries == map[]
      ensures old(pins).entries.Keys !! stuck ==> ok
      ensures forall name :: name in pins.entries ==>
        name in old(pins).entries && pins.entries[name] == old(pins).entries[name]
    {
      var todo := pins.entries.Keys;
      while todo != {}
        invariant pins.Dir? && todo == pins.entries.Keys
        invariant forall name :: name in pins.entries ==>
          name in old(pins).entries && pins.entries[name] == old(pins).entries[name]
        decreases todo
      {
        var name :| name in todo;
        if name in stuck {
          return false;
        }
        pins := Dir(pins.entries - {name});
        todo := todo - {name};
      }
      return true;
    }

    /** The owner file and its directory go. */
    method RemoveRecord(env: CleanupEnv) returns (ok: bool, changed: bool)
      requires Valid()
      modifies `ownerFile, `ownerDir
      ensures Valid()
      ensures ok <==> env.unlinkOk && env.ownerRmdirOk
      ensures ownerFile == if env.unlinkOk then Missing else old(ownerFile)
      ensures ownerDir == if ok && !strangers then false else old(ownerDir)
      ensures ok ==> (changed <==> ownerFile != old(ownerFile) || ownerDir != old(ownerDir))
    {
      if !env.unlinkOk {
        return false, false;
      }
      changed := ownerFile != Missing;
      ownerFile := Missing;
      if !env.ownerRmdirOk {
        return false, changed;
      }
      if ownerDir && !strangers {
        ownerDir := false;
        changed := true;
      }
      return true, changed;
    }

    /** The pin directory goes, with all its entries. */
    method RemovePins(env: CleanupEnv) returns (ok: bool, changed: bool)
      modifies `pins
      ensures pins.NotADir? <==> old(pins).NotADir?
      ensures NothingAdded(old(State()), State())
      ensures ok ==> env.openOk && env.rmdirOk && pins == Absent && (changed <==> pins != old(pins))
      ensures old(pins) == Absent ==> pins == Absent
      ensures env.openOk && env.rmdirOk && !old(pins).NotADir? && (env.stuck == {} || old(pins) == Absent) ==> ok
    {
      if pins.NotADir? || !env.openOk {
        return false, false;
      }
      if pins.Dir? {
        var removed := RemoveDirEntries(env.stuck);
        if !removed {
          return false, false;
        }
      }
      if !env.rmdirOk {
        return false, false;
      }
      changed := pins.Dir?;
      pins := Absent;
      return true, changed;
    }

    /** `cleanup_stale_state` */
    method CleanupStaleState(env: CleanupEnv) returns (r: CleanupResult)
      requires Valid()
      modifies this
      ensures Valid()
      ensures CleanupPost(old(State()), State(), env, r)
    {
      var owner := if env.sight.file then ReadOwner(ownerFile) else None;
      if owner.Some? && env.sight.proc && Alive(procs, owner.value) {
        return ActiveOwner;
      }
      var recordGone, recordChanged := RemoveRecord(env);
      if !recordGone {
        return Error;
      }
      var pinsGone, pinsChanged := RemovePins(env);
      if !pinsGone {
        return Error;
      }
      return Ok(recordChanged || pinsChanged);
    }

    /** The owner shuts down, after unpinning if it still holds the interface and gets
        that far. */
    method OwnerExits(o: Id, unpins: bool, env: UnpinEnv)
      requires Valid() && Alive(procs, o)
      modifies this
      ensures Valid()
      ensures ShutDown(old(State()), State(), o)
    {
      if unpins && o in holders {
        var died := Unpin(o, env);
      }
      Die(o);
    }

    /** `wait_for_owner_exit`: polls every 100 ms. The owner exits during the sleep
        after poll `exitPoll`, if the waiting lasts that long; at poll `blindPoll` /proc
        cannot be read, and the owner counts as gone. */
    method WaitForOwnerExit(o: Id, timeoutUs: nat, exitPoll: nat, blindPoll: nat, unpins: bool, env: UnpinEnv)
      returns (exited: bool)
      requires Valid() && Alive(procs, o)
      modifies this
      ensures Valid()
      ensures StopPost(old(State()), State(), o)
      ensures Alive(procs, o) ==> State() == old(State())
      ensures exited && Alive(procs, o) <==> BlindFirst(timeoutUs, exitPoll, blindPoll)
      ensures !Alive(procs, o) <==> exitPoll * STEP_US < timeoutUs && exitPoll < blindPoll
      ensures !Alive(procs, o) ==> exited
    {
      var waited, poll := 0, 0;
      while waited < timeoutUs
        invariant waited == STEP_US * poll
        invariant Valid()
        invariant poll <= exitPoll ==> State() == old(State())
        invariant poll > exitPoll ==> !Alive(procs, o) && exitPoll * STEP_US < timeoutUs
        invariant StopPost(old(State()), State(), o)
        invariant poll > 0 ==> (poll - 1) * STEP_US < timeoutUs
        invariant poll <= blindPoll
      {
        if poll == blindPoll || !Alive(procs, o) {
          return true;
        }
        if poll == exitPoll {
          OwnerExits(o, unpins, env);
        }
        waited, poll := waited + STEP_US, poll + 1;
      }
      return poll == blindPoll || !Alive(procs, o);
    }

    /** `stop_owner_process`: SIGTERM and up to two seconds, then SIGKILL and up to one. */
    method StopOwnerProcess(o: Id, env: StopEnv) returns (r: StopResult)
      requires Valid()
      modifies this
      ensures Valid()
      ensures StopPost(old(State()), State(), o)
      ensures Alive(old(procs), o) && GivesUp(env) ==> State() == old(State()) && r.Stopped?
      ensures Alive(old(procs), o) && !GivesUp(env) && r.Stopped? ==> !Alive(procs, o)
      ensures r.Stopped? ==> (r.signalled <==> Alive(old(procs), o) && env.sight.proc && env.term == Sent)
      ensures Alive(old(procs), o) && env.sight.proc && env.term == NotPermitted ==>
        r == Permission && State() == old(State())
      ensures r == Permission ==> env.term == NotPermitted || env.kill == NotPermitted
      ensures !r.Stopped? ==> Alive(old(procs), o)
    {
      if !env.sight.proc || !Alive(procs, o) {
        return Stopped(false);
      }
      match env.term
      case NoSuchProcess =>
        OwnerExits(o, env.unpins, env.unpin); // it went away by itself
        return Stopped(false);
      case NotPermitted => return Permission;
      case NotSent => return SignalError;
      case Sent =>
        var exited := WaitForOwnerExit(o, TERM_US, env.termPoll, env.termBlind, env.unpins, env.unpin);
        if exited {
          return Stopped(true);
        }
        r := KillOwner(o, env);
    }

    method KillOwner(o: Id, env: StopEnv) returns (r: StopResult)
      requires Valid() && Alive(procs, o)
      modifies this
      ensures Valid()
      ensures StopPost(old(State()), State(), o)
      ensures Alive(procs, o) ==> State() == old(State())
      ensures r == Stopped(true) || !r.Stopped?
      ensures r == Permission <==> env.kill == NotPermitted
      ensures r.Stopped? && Alive(procs, o) <==>
        (env.kill == Sent || env.kill == NoSuchProcess) && BlindFirst(KILL_US, env.killPoll, env.killBlind)
    {
      if env.kill == NotPermitted {
        return Permission;
      }
      if env.kill == NotSent {
        return SignalError;
      }
      var exited := WaitForOwnerExit(o, KILL_US, env.killPoll, env.killBlind, false, env.unpin);
      return if exited then Stopped(true) else StillAlive;
    }

    /** `cmd_detach` up to the cleanup. */
    method Detach(env: StopEnv, cleanup: CleanupEnv) returns (r: DetachResult)
      requires Valid()
      modifies this
      ensures Valid()
      ensures DetachPost(old(State()), State(), env, cleanup, r)
      ensures r.Detached? ==> Clean(State())
      ensures r.Detached? ==> (r.stopped <==> LiveOwner(old(State())) && env.sight.Full() && env.term == Sent)
      ensures LiveOwner(old(State())) && env.sight.Full() && env.term == NotPermitted ==>
        r == PermissionDenied && State() == old(State())
      ensures r == PermissionDenied ==> env.term == NotPermitted || env.kill == NotPermitted
    {
      var stopped := false;
      var owner := if env.sight.file then ReadOwner(ownerFile) else None;
      if owner.Some? {
        var stop := StopOwnerProcess(owner.value, env);
        if !stop.Stopped? {
          return if stop == Permission then PermissionDenied else StopFailed;
        }
        stopped := stop.signalled;
      }
      ghost var mid := State();
      var c := CleanupStaleState(cleanup);
      r := if c.Ok? then Detached(stopped, c.changed) else CleanupFailed;
      assert DetachVia(old(State()), mid, State(), env, cleanup, c, r);
    }
  }
}
