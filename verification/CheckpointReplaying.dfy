/** The replay as it runs: a checkpoint store updated in place, proved against the functions of ArchiveReplay. */
module CheckpointReplaying {
  import opened Prelude
  import opened ArchiveTypes
  import opened ArchiveReplay
  import opened ArchiveWatermarks

  class CheckpointStore {
    const oneShot: bool
    var checkpoints: map<nat, Summary>
    var contents: map<nat, Contents>
    var committees: map<nat, Committee>
    var verified: nat
    var synced: nat
    ghost var log: seq<Summary>

    ghost function State(): Store
      reads this
    {
      Store(oneShot, checkpoints, contents, committees, verified, synced, log)
    }

    /** A store into which the genesis checkpoint was inserted. */
    constructor (t: Trust, oneShot: bool, genesis: Entry)
      ensures this.oneShot == oneShot && State() == GenesisStore(t, oneShot, genesis)
    {
      var cp := genesis.summary;
      this.oneShot := oneShot;
      checkpoints, contents := map[cp.seqNum := cp], map[cp.seqNum := genesis.contents];
      committees := InsertCommittee(map[0 := t.genesisCommittee], cp);
      verified, synced, log := 0, 0, [cp];
    }

    method Insert(cp: Summary)
      modifies `checkpoints, `committees, `verified, `log
      ensures State() == InsertCheckpoint(old(State()), cp)
    {
      if cp.nextCommittee.Some? && NextEpoch(cp.epoch) !in committees {
        committees := committees[NextEpoch(cp.epoch) := cp.nextCommittee.value];
      }
      if oneShot { checkpoints := map[]; }
      checkpoints := checkpoints[cp.seqNum := cp];
      if cp.seqNum > verified { verified := cp.seqNum; }
      log := log + [cp];
    }

    method GetOrInsertVerified(t: Trust, cp: Summary, verify: bool, fault: Fault) returns (r: Outcome<Summary>)
      modifies `checkpoints, `committees, `verified, `log
      ensures Stepped(State(), r) == GetOrInsertVerifiedCheckpoint(t, old(State()), cp, verify, fault)
    {
      if cp.seqNum in checkpoints { return Ok(checkpoints[cp.seqNum]); }
      if verify {
        if cp.seqNum == 0 || cp.seqNum - 1 !in checkpoints { return Err; }
        var checked := VerifyCheckpoint(t, committees, checkpoints[cp.seqNum - 1], cp);
        if !checked.Ok? { return checked; }
      }
      if fault == InsertCheckpointFails { return Err; }
      Insert(cp);
      if fault == UpdateVerifiedFails { return Panicked; }
      return Ok(cp);
    }

    method ReplayEntry(t: Trust, item: Entry, verify: bool, fault: Fault) returns (r: Outcome<()>)
      modifies this
      ensures Stepped(State(), r) == ReplayOne(t, old(State()), item, verify, fault)
    {
      var got := GetOrInsertVerified(t, item.summary, verify, fault);
      if got.Err? { return Err; }
      if got.Panicked? { return Panicked; }
      var cp := got.value;
      if !VerifyDigests(t, item.contents, cp.contentDigest) || fault == InsertContentsFails { return Err; }
      if oneShot { contents := map[]; }
      contents := contents[cp.seqNum := item.contents];
      if fault == UpdateWatermarkFails { return Err; }
      if cp.seqNum > synced { synced := cp.seqNum; }
      return Ok(());
    }

    /** Replays the stream until the first failure; when verifying, the chain of trust stands at every step. */
    method ReplayAll(t: Trust, items: seq<Item>, verify: bool) returns (r: Outcome<()>)
      requires verify ==> StoreOk(t, State())
      modifies this
      ensures Stepped(State(), r) == Replay(t, old(State()), items, verify)
      ensures verify ==> StoreOk(t, State()) && old(log) <= log && old(synced) <= synced
    {
      if verify { ReplayKeepsStoreOk(t, State(), items); }
      for i := 0 to |items|
        invariant Replay(t, State(), items[i..], verify) == Replay(t, old(State()), items, verify)
      {
        assert items[i..][1..] == items[i + 1..];
        r := ReplayEntry(t, items[i].entry, verify, items[i].fault);
        if !r.Ok? { return; }
      }
      r := Ok(());
    }
  }
}
