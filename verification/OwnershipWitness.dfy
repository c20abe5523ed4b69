/** Runs of the ownership program that show what its promises depend on. Each is made by
    calling the program itself. */
module OwnershipWitness {
  import opened Ownership
  import opened OwnershipProgram
  import opened OwnershipRuns

  const NAME := "pkt_counts"
  const FIRST := Id(1, 1)
  const SECOND := Id(2, 2)

  /** A `pin` in which every call succeeds and all names can be cleared. */
  const SMOOTH := PinEnv(Sight(true, true), true, {NAME}, true, true, {}, true, true, true, {}, true, LAST_STEP + 1)

  /** One map and two processes on an untouched interface. */
  const START := Sys({NAME}, Absent, false, false, Missing, map[1 := Proc(1, false), 2 := Proc(2, false)], {})

  /** The interface between steps; both processes have been used. */
  function At(s: Sys): Moment {
    Moment(s, {FIRST, SECOND})
  }

  lemma TwoSteps(s: Sys, t: Sys, u: Sys, a: Action, b: Action)
    requires s == START && Next(At(s), a, At(t)) && Next(At(t), b, At(u))
    ensures IsRun([At(s), At(t), At(u)], [a, b])
  {
  }

  /** After a smooth `pin` on the untouched interface the first process owns it. */
  lemma FirstOwns(t: Sys, r: PinResult)
    requires PinPost(START, t, FIRST, SMOOTH, r)
    ensures r == Pinned && Owns(t, FIRST) && Names(t, FIRST) && PinnedBy(t, FIRST)
    ensures t.procs == START.procs && t.holders == {FIRST} && t.maps == {NAME} && t.pins.Dir?
    ensures Next(At(START), Pin(FIRST, SMOOTH), At(t))
  {
    assert NAME in t.maps;
  }

  /** Starts the interface. */
  method Fresh() returns (i: Interface)
    ensures fresh(i) && i.Valid() && i.State() == START
  {
    i := new Interface({NAME}, map[1 := Proc(1, false), 2 := Proc(2, false)]);
  }

  /** The first process owns the interface; the second cannot read what it needs to see
      that, and pins over it. */
  method TwoOwners(sight: Sight) returns (trace: seq<Moment>, acts: seq<Action>)
    requires !sight.Full()
    ensures IsRun(trace, acts) && |acts| == 2 && PinsOnce(trace, acts)
    ensures Owns(trace[2].sys, FIRST) && Owns(trace[2].sys, SECOND) && !Names(trace[2].sys, FIRST)
  {
    var blind := SMOOTH.(sight := sight);
    var i := Fresh();
    var s := i.State();
    var first := i.Pin(FIRST, SMOOTH);
    var t := i.State();
    var second := i.Pin(SECOND, blind);
    var u := i.State();
    FirstOwns(t, first);
    trace, acts := [At(s), At(t), At(u)], [Pin(FIRST, SMOOTH), Pin(SECOND, blind)];
    TwoSteps(s, t, u, acts[0], acts[1]);
  }

  /** The first process dies while it pins and leaves a name behind; the second meets no
      failure but does not clear that name, and cannot pin. */
  method StalePinStays() returns (trace: seq<Moment>, acts: seq<Action>)
    ensures IsRun(trace, acts) && |acts| == 2 && !LiveOwner(trace[1].sys)
    ensures acts[1].Pin? && Faultless(acts[1].pinEnv) && !Owns(trace[2].sys, SECOND)
  {
    var cut, stuck := SMOOTH.(death := 3, leftBehind := {NAME}), SMOOTH.(reclaimed := {});
    var i := Fresh();
    var s := i.State();
    var first := i.Pin(FIRST, cut);
    var t := i.State();
    var second := i.Pin(SECOND, stuck);
    var u := i.State();
    trace, acts := [At(s), At(t), At(u)], [Pin(FIRST, cut), Pin(SECOND, stuck)];
    TwoSteps(s, t, u, acts[0], acts[1]);
  }

  /** A cleanup that cannot read /proc removes a live owner's pins and owner file. */
  method OwnerCleanedAway() returns (trace: seq<Moment>, acts: seq<Action>)
    ensures IsRun(trace, acts) && |acts| == 2
    ensures Owns(trace[1].sys, FIRST) && Owns(trace[2].sys, FIRST) && Clean(trace[2].sys)
  {
    var env := CleanupEnv(Sight(true, false), true, true, true, {}, true);
    var i := Fresh();
    var s := i.State();
    var first := i.Pin(FIRST, SMOOTH);
    var t := i.State();
    var c := i.CleanupStaleState(env);
    var u := i.State();
    FirstOwns(t, first);
    trace, acts := [At(s), At(t), At(u)], [Pin(FIRST, SMOOTH), Cleanup(env)];
    TwoSteps(s, t, u, acts[0], acts[1]);
  }
}
