/** The tick body of `cmd_top` (src/cli/commands/top.cpp) on the running objects:
    read the flow table, feed the tracker, write its decisions to the blacklist. It
    is proved to be the `Tick` action of module `ControlLoop`. */
module TopLoop {
  import opened Words
  import opened Xdp
  import opened Tracker
  import opened TrackerProgram
  import opened ControlLoop

  class Top {
    const par: Params
    const tracker: FlowTracker
    const program: Program

    ghost predicate Valid() {
      tracker.cfg == par.cfg && program.setup == par.KernelSetup()
    }

    constructor (par: Params)
      ensures this.par == par && Valid() && fresh(tracker) && fresh(program)
      ensures program.State() == BOOT && tracker.Abs() == START
    {
      this.par := par;
      tracker := new FlowTracker(par.cfg);
      program := new Program(par.KernelSetup());
    }

    /** `FlowStateSnapshot::refresh`: walks the keys in the kernel's order and leaves out
        those in `lost`, whose lookup fails. */
    method ReadFlows(lost: set<FlowKey>) returns (entries: seq<Entry>)
      ensures Samples(entries, program.flowState)
      ensures forall k :: k in program.flowState && k !in lost ==>
        exists i :: 0 <= i < |entries| && entries[i].key == k
    {
      entries := [];
      var flows := program.flowState;
      var todo := flows.Keys;
      while todo != {}
        invariant todo <= flows.Keys
        invariant Samples(entries, flows)
        invariant forall i :: 0 <= i < |entries| ==> entries[i].key !in todo
        invariant forall k :: k in flows && k !in todo && k !in lost ==>
          exists i :: 0 <= i < |entries| && entries[i].key == k
        decreases todo
      {
        var key :| key in todo;
        ghost var before := entries;
        todo := todo - {key};
        if key !in lost {
          entries := entries + [Entry(key, flows[key])];
          assert entries[|before|].key == key;
        }
        forall k | k in flows && k !in todo && k !in lost
          ensures exists i :: 0 <= i < |entries| && entries[i].key == k {
          if k != key {
            var i :| 0 <= i < |before| && before[i].key == k;
            assert entries[i].key == k;
          }
        }
      }
    }

    /** Inserts blocks in order; failures are ignored. There is no memory for the
        insertions `refused`. */
    method InsertBlocks(blocks: seq<u32>, refused: set<u32>)
      modifies program`blacklist
      ensures program.blacklist == AddHosts(old(program.blacklist), blocks, refused)
    {
      for i := 0 to |blocks|
        invariant program.blacklist == AddHosts(old(program.blacklist), blocks[..i], refused)
      {
        assert blocks[..i + 1][..i] == blocks[..i];
        if blocks[i] !in refused && |program.blacklist| < MAX_BLACKLIST {
          program.blacklist := program.blacklist + {Prefix(32, blocks[i])};
        }
      }
      assert blocks[..|blocks|] == blocks;
    }

    /** Deletes the entries of expired blocks. */
    method DeleteBlocks(unblocks: seq<u32>)
      modifies program`blacklist
      ensures program.blacklist == old(program.blacklist) - Hosts(unblocks)
    {
      for i := 0 to |unblocks|
        invariant program.blacklist == old(program.blacklist) - Hosts(unblocks[..i])
      {
        assert unblocks[..i + 1] == unblocks[..i] + [unblocks[i]];
        assert Hosts(unblocks[..i + 1]) == Hosts(unblocks[..i]) + {Prefix(32, unblocks[i])};
        program.blacklist := program.blacklist - {Prefix(32, unblocks[i])};
      }
      assert unblocks[..|unblocks|] == unblocks;
    }

    /** Blocks are inserted first, then expired blocks are deleted. */
    method UpdateBlacklist(blocks: seq<u32>, unblocks: seq<u32>, refused: set<u32>, ghost expired: set<u32>)
      requires Lists(unblocks, expired)
      modifies program`blacklist
      ensures program.blacklist == RemoveHosts(Written(old(program.blacklist), Writes(blocks, refused)), expired)
    {
      InsertBlocks(blocks, refused);
      ghost var full := program.blacklist;
      DeleteBlocks(unblocks);
      assert full - Hosts(unblocks) == RemoveHosts(full, expired);
    }

    /** One tick at time `now`; `readable` tells whether the flow table could be read, and
        `lost` what was missed. */
    method TickBody(now: u64, readable: bool, lost: set<FlowKey>, refused: set<u32>, ghost w: World)
      returns (snapshot: Snapshot, blocks: seq<u32>, unblocks: seq<u32>)
      requires Valid()
      requires w.kernel == program.State() && w.tracker == tracker.Abs() && ClockReads(w, now)
      modifies tracker, program`blacklist
      ensures Enabled(par, w, Tick(snapshot, now, Writes(blocks, refused)))
      ensures program.State() == OnTickAction(par, w, snapshot, now, Writes(blocks, refused)).kernel
      ensures tracker.Abs() == OnTickAction(par, w, snapshot, now, Writes(blocks, refused)).tracker
      ensures Lists(unblocks, TickUnblocks(par.cfg, w.tracker, snapshot, now, true))
      ensures readable && lost == {} ==> snapshot.Taken? && Reads(snapshot.entries, w.kernel.flows)
    {
      snapshot := Failed;
      if readable {
        var entries := ReadFlows(lost);
        snapshot := Taken(entries);
      }
      blocks, unblocks := tracker.Tick(snapshot, now);
      UpdateBlacklist(blocks, unblocks, refused, TickUnblocks(par.cfg, w.tracker, snapshot, now, true));
    }
  }
}
