/**
 * Replaying archive data into a checkpoint store. The archive is not trusted: every summary is checked
 * against its predecessor and the committee in force, every content against its summary.
 */
module ArchiveReplay {
  import opened Prelude
  import opened ArchiveTypes

  /** Digests and signatures, left uninterpreted, and the committee of epoch zero. */
  datatype Trust = Trust(
    digest: Summary -> Digest,
    signedBy: (Committee, Summary) -> bool,
    contentsDigest: Contents -> Digest,
    effectsMatch: Contents -> bool,
    genesisCommittee: Committee)

  function NextEpoch(epoch: nat): nat {
    if epoch >= U64_MAX then U64_MAX else epoch + 1
  }

  /** `verify_checkpoint`: the checkpoint extends `current` and is signed by the committee of its epoch. */
  function VerifyCheckpoint(t: Trust, committees: map<nat, Committee>, current: Summary, cp: Summary): Outcome<Summary> {
    if cp.epoch !in committees || cp.seqNum != current.seqNum + 1 then Panicked
    else if cp.previousDigest != Some(t.digest(current)) then Err
    else if cp.epoch != current.epoch && cp.epoch != NextEpoch(current.epoch) then Err
    else if cp.epoch == NextEpoch(current.epoch) && current.nextCommittee.None? then Err
    else if !t.signedBy(committees[cp.epoch], cp) then Err
    else Ok(cp)
  }

  function VerifyDigests(t: Trust, contents: Contents, digest: Digest): bool {
    t.contentsDigest(contents) == digest && t.effectsMatch(contents)
  }

  /**
   * The store being filled. `log` records every checkpoint ever inserted; a one-shot store keeps only the
   * last checkpoint and the last contents.
   */
  datatype Store = Store(
    oneShot: bool,
    checkpoints: map<nat, Summary>,
    contents: map<nat, Contents>,
    committees: map<nat, Committee>,
    verified: nat,
    synced: nat,
    log: seq<Summary>)

  /** A committee once known for an epoch is never replaced. */
  function InsertCommittee(committees: map<nat, Committee>, cp: Summary): map<nat, Committee> {
    if cp.nextCommittee.None? || NextEpoch(cp.epoch) in committees then committees
    else committees[NextEpoch(cp.epoch) := cp.nextCommittee.value]
  }

  function Max(a: nat, b: nat): nat {
    if a < b then b else a
  }

  function InsertCheckpoint(st: Store, cp: Summary): Store {
    st.(
      checkpoints := (if st.oneShot then map[] else st.checkpoints)[cp.seqNum := cp],
      committees := InsertCommittee(st.committees, cp),
      verified := Max(st.verified, cp.seqNum),
      log := st.log + [cp])
  }

  /** Which operation of the store fails, if any. The verified watermark is not expected to fail: that is a panic. */
  datatype Fault = NoFault | InsertCheckpointFails | UpdateVerifiedFails | InsertContentsFails | UpdateWatermarkFails

  datatype Stepped<T> = Stepped(st: Store, outcome: Outcome<T>)

  function GetOrInsertVerifiedCheckpoint(t: Trust, st: Store, cp: Summary, verify: bool, fault: Fault): Stepped<Summary> {
    if cp.seqNum in st.checkpoints then Stepped(st, Ok(st.checkpoints[cp.seqNum]))
    else
      var checked :=
        if !verify then Ok(cp)
        else if cp.seqNum == 0 || cp.seqNum - 1 !in st.checkpoints then Err
        else VerifyCheckpoint(t, st.committees, st.checkpoints[cp.seqNum - 1], cp);
      if !checked.Ok? then Stepped(st, checked)
      else if fault == InsertCheckpointFails then Stepped(st, Err)
      else if fault == UpdateVerifiedFails then Stepped(InsertCheckpoint(st, cp), Panicked)
      else Stepped(InsertCheckpoint(st, cp), Ok(cp))
  }

  function InsertContents(st: Store, cp: Summary, contents: Contents): Store {
    st.(contents := (if st.oneShot then map[] else st.contents)[cp.seqNum := contents])
  }

  /** One (summary, contents) pair of the archive. */
  function ReplayOne(t: Trust, st: Store, item: Entry, verify: bool, fault: Fault): Stepped<()> {
    var got := GetOrInsertVerifiedCheckpoint(t, st, item.summary, verify, fault);
    match got.outcome
    case Err => Stepped(got.st, Err)
    case Panicked => Stepped(got.st, Panicked)
    case Ok(cp) =>
      if !VerifyDigests(t, item.contents, cp.contentDigest) || fault == InsertContentsFails then Stepped(got.st, Err)
      else
        var st' := InsertContents(got.st, cp, item.contents);
        if fault == UpdateWatermarkFails then Stepped(st', Err)
        else Stepped(st'.(synced := Max(st'.synced, cp.seqNum)), Ok(()))
  }

  /** What the stream of downloaded files delivers: pairs, each with the store's behaviour on it. */
  datatype Item = Item(entry: Entry, fault: Fault)

  function Replay(t: Trust, st: Store, items: seq<Item>, verify: bool): Stepped<()>
    decreases items
  {
    if items == [] then Stepped(st, Ok(()))
    else
      var one := ReplayOne(t, st, items[0].entry, verify, items[0].fault);
      if one.outcome.Ok? then Replay(t, one.st, items[1..], verify) else one
  }

  // --- Chain of trust ---

  /** The committees known after the first `n` checkpoints of a log. */
  ghost function CommitteesAfter(t: Trust, log: seq<Summary>, n: nat): map<nat, Committee>
    requires n <= |log|
  {
    if n == 0 then map[0 := t.genesisCommittee] else InsertCommittee(CommitteesAfter(t, log, n - 1), log[n - 1])
  }

  /** Checkpoint `i` passed `verify_checkpoint` against its predecessor under the committees then known. */
  ghost predicate Verified(t: Trust, log: seq<Summary>, i: nat)
    requires 0 < i < |log|
  {
    VerifyCheckpoint(t, CommitteesAfter(t, log, i), log[i - 1], log[i]).Ok?
  }

  ghost predicate ChainOk(t: Trust, log: seq<Summary>) {
    && log != [] && log[0].seqNum == 0
    && (forall i | 0 < i < |log| :: Verified(t, log, i))
  }

  /** The checkpoints a store keeps of its log. */
  ghost function Held(oneShot: bool, log: seq<Summary>): map<nat, Summary>
    requires log != []
  {
    if oneShot then map[|log| - 1 := log[|log| - 1]] else map i: nat | i < |log| :: log[i]
  }

  /** The store holds a verified chain, and only contents that match it. */
  ghost predicate StoreOk(t: Trust, st: Store) {
    && ChainOk(t, st.log)
    && (forall i | 0 <= i < |st.log| :: st.log[i].seqNum == i)
    && st.committees == CommitteesAfter(t, st.log, |st.log|)
    && st.checkpoints == Held(st.oneShot, st.log)
    && (forall n | n in st.contents :: n < |st.log| && VerifyDigests(t, st.contents[n], st.log[n].contentDigest))
    && st.verified == |st.log| - 1
    && st.synced <= st.verified
  }

  lemma {:induction false} CommitteesAfterPrefix(t: Trust, log: seq<Summary>, more: seq<Summary>, n: nat)
    requires n <= |log|
    ensures CommitteesAfter(t, log + more, n) == CommitteesAfter(t, log, n)
  {
    if n == 0 {
    } else {
      CommitteesAfterPrefix(t, log, more, n - 1);
    }
  }

  /** Every committee comes from the genesis or from a checkpoint of the log in the epoch before. */
  lemma {:induction false} CommitteeProvenance(t: Trust, log: seq<Summary>, n: nat, e: nat)
    requires n <= |log| && e in CommitteesAfter(t, log, n)
    ensures (e == 0 && CommitteesAfter(t, log, n)[e] == t.genesisCommittee)
         || exists i | 0 <= i < n :: NextEpoch(log[i].epoch) == e && log[i].nextCommittee == Some(CommitteesAfter(t, log, n)[e])
  {
    if n > 0 && e in CommitteesAfter(t, log, n - 1) { CommitteeProvenance(t, log, n - 1, e); }
  }

  /** Every committee a checkpoint of the log names is known from then on. */
  lemma {:induction false} NamedCommitteeKnown(t: Trust, log: seq<Summary>, n: nat, k: nat)
    requires k < n <= |log| && log[k].nextCommittee.Some?
    ensures NextEpoch(log[k].epoch) in CommitteesAfter(t, log, n)
  {
    if k == n - 1 {
    } else {
      NamedCommitteeKnown(t, log, n - 1, k);
    }
  }

  /** The genesis committee stays in charge of epoch zero. */
  lemma {:induction false} GenesisCommitteeKept(t: Trust, log: seq<Summary>, n: nat)
    requires n <= |log|
    ensures 0 in CommitteesAfter(t, log, n) && CommitteesAfter(t, log, n)[0] == t.genesisCommittee
  {
    if n == 0 {
    } else {
      GenesisCommitteeKept(t, log, n - 1);
    }
  }

  /** Some checkpoint of the log, or the genesis, put a committee in charge of epoch `e`. */
  ghost predicate InCharge(log: seq<Summary>, e: nat) {
    e == 0 || exists k | 0 <= k < |log| :: NextEpoch(log[k].epoch) == e && log[k].nextCommittee.Some?
  }

  /**
   * A new checkpoint whose predecessor is held panics the reader exactly when no committee is in charge of its
   * epoch; every other mismatch is an error, and neither changes the store.
   */
  lemma PanicsWithoutCommittee(t: Trust, st: Store, cp: Summary)
    requires StoreOk(t, st) && cp.seqNum == |st.log|
    ensures var r := GetOrInsertVerifiedCheckpoint(t, st, cp, true, NoFault);
      && (r.outcome.Panicked? <==> !InCharge(st.log, cp.epoch))
      && (!r.outcome.Ok? ==> r.st == st)
  {
    var n := |st.log|;
    GenesisCommitteeKept(t, st.log, n);
    if cp.epoch in st.committees { CommitteeProvenance(t, st.log, n, cp.epoch); }
    forall k | 0 <= k < n && st.log[k].nextCommittee.Some? ensures NextEpoch(st.log[k].epoch) in st.committees {
      NamedCommitteeKnown(t, st.log, n, k);
    }
  }

  /**
   * What a verified chain amounts to: each checkpoint names the digest of the one before, follows it by one number
   * and at most one epoch, and is signed by a committee that the genesis or an earlier checkpoint put in charge.
   */
  lemma ChainMeans(t: Trust, log: seq<Summary>, i: nat) returns (signers: Committee)
    requires ChainOk(t, log) && 0 < i < |log|
    ensures log[i].seqNum == log[i - 1].seqNum + 1 && log[i].previousDigest == Some(t.digest(log[i - 1]))
    ensures log[i].epoch == log[i - 1].epoch || (log[i].epoch == NextEpoch(log[i - 1].epoch) && log[i - 1].nextCommittee.Some?)
    ensures t.signedBy(signers, log[i])
    ensures (log[i].epoch == 0 && signers == t.genesisCommittee)
         || exists k | 0 <= k < i :: NextEpoch(log[k].epoch) == log[i].epoch && log[k].nextCommittee == Some(signers)
  {
    assert Verified(t, log, i);
    signers := CommitteesAfter(t, log, i)[log[i].epoch];
    CommitteeProvenance(t, log, i, log[i].epoch);
  }

  lemma InsertKeepsStoreOk(t: Trust, st: Store, cp: Summary)
    requires StoreOk(t, st)
    requires VerifyCheckpoint(t, st.committees, st.log[|st.log| - 1], cp).Ok?
    ensures StoreOk(t, InsertCheckpoint(st, cp))
  {
    var st' := InsertCheckpoint(st, cp);
    var n := |st.log|;
    forall k | 0 <= k <= n ensures CommitteesAfter(t, st'.log, k) == CommitteesAfter(t, st.log, k) {
      CommitteesAfterPrefix(t, st.log, [cp], k);
    }
    forall i | 0 < i < |st'.log| ensures Verified(t, st'.log, i) {
      if i < n { assert Verified(t, st.log, i); }
    }
  }

  /** Fetching a summary leaves contents and the synced watermark alone. */
  lemma GetOrInsertFrame(t: Trust, st: Store, cp: Summary, fault: Fault)
    ensures var r := GetOrInsertVerifiedCheckpoint(t, st, cp, true, fault);
      && r.st.synced == st.synced && r.st.contents == st.contents && r.st.oneShot == st.oneShot
      && st.log <= r.st.log
      && st.verified <= r.st.verified <= Max(st.verified, cp.seqNum)
  {}

  lemma GetOrInsertKeepsStoreOk(t: Trust, st: Store, cp: Summary, fault: Fault)
    requires StoreOk(t, st)
    ensures var r := GetOrInsertVerifiedCheckpoint(t, st, cp, true, fault);
      && StoreOk(t, r.st)
      && (r.outcome.Ok? ==> r.outcome.value.seqNum == cp.seqNum && cp.seqNum < |r.st.log| && r.st.log[cp.seqNum] == r.outcome.value)
  {
    var r := GetOrInsertVerifiedCheckpoint(t, st, cp, true, fault);
    if r.st != st {
      assert cp.seqNum == |st.log|;
      InsertKeepsStoreOk(t, st, cp);
    }
  }

  lemma SyncedKeepsStoreOk(t: Trust, st: Store, cp: Summary, contents: Contents, synced: nat)
    requires StoreOk(t, st) && cp.seqNum < |st.log| && st.log[cp.seqNum] == cp && synced <= st.verified
    requires VerifyDigests(t, contents, cp.contentDigest)
    ensures StoreOk(t, InsertContents(st, cp, contents).(synced := synced))
  {}

  /** Whatever the archive supplies and wherever the store fails, the chain of trust stands. */
  lemma ReplayOneKeepsStoreOk(t: Trust, st: Store, item: Entry, fault: Fault)
    requires StoreOk(t, st)
    ensures var st' := ReplayOne(t, st, item, true, fault).st;
      StoreOk(t, st') && st.log <= st'.log && st.synced <= st'.synced
  {
    GetOrInsertKeepsStoreOk(t, st, item.summary, fault);
    GetOrInsertFrame(t, st, item.summary, fault);
    var got := GetOrInsertVerifiedCheckpoint(t, st, item.summary, true, fault);
    if got.outcome.Ok? && VerifyDigests(t, item.contents, got.outcome.value.contentDigest) && fault != InsertContentsFails {
      var cp, synced := got.outcome.value, got.st.synced;
      SyncedKeepsStoreOk(t, got.st, cp, item.contents, if fault == UpdateWatermarkFails then synced else Max(synced, cp.seqNum));
    }
  }

  lemma {:induction false} ReplayKeepsStoreOk(t: Trust, st: Store, items: seq<Item>)
    requires StoreOk(t, st)
    ensures var st' := Replay(t, st, items, true).st;
      StoreOk(t, st') && st.log <= st'.log && st.synced <= st'.synced
    decreases items
  {
    if items == [] {
    } else {
      var one := ReplayOne(t, st, items[0].entry, true, items[0].fault);
      assert StoreOk(t, one.st) && st.log <= one.st.log && st.synced <= one.st.synced by {
        ReplayOneKeepsStoreOk(t, st, items[0].entry, items[0].fault);
      }
      if one.outcome.Ok? { ReplayKeepsStoreOk(t, one.st, items[1..]); }
    }
  }

  // --- Contents ---

  /** Whatever a store holds as contents of a checkpoint has the digest that checkpoint names, and consistent effects. */
  lemma StoredContentsMatch(t: Trust, st: Store, n: nat)
    requires StoreOk(t, st) && n in st.contents
    ensures n < |st.log|
    ensures t.contentsDigest(st.contents[n]) == st.log[n].contentDigest && t.effectsMatch(st.contents[n])
  {}

  /** So it is after replaying arbitrary data, at the end and at every failure. */
  lemma ReplayStoresMatching(t: Trust, st: Store, items: seq<Item>, n: nat)
    requires StoreOk(t, st) && n in Replay(t, st, items, true).st.contents
    ensures var st' := Replay(t, st, items, true).st;
      && n < |st'.log|
      && t.contentsDigest(st'.contents[n]) == st'.log[n].contentDigest && t.effectsMatch(st'.contents[n])
  {
    ReplayKeepsStoreOk(t, st, items);
    StoredContentsMatch(t, Replay(t, st, items, true).st, n);
  }

  /** Contents offered for a held checkpoint are stored if they match it, and refused without a trace if they do not. */
  lemma HeldContentsExactly(t: Trust, st: Store, item: Entry)
    requires StoreOk(t, st) && item.summary.seqNum in st.checkpoints
    ensures var r, n := ReplayOne(t, st, item, true, NoFault), item.summary.seqNum;
      var matches := t.contentsDigest(item.contents) == st.log[n].contentDigest && t.effectsMatch(item.contents);
      && (r.outcome.Ok? <==> matches) && !r.outcome.Panicked?
      && (if matches then n in r.st.contents && r.st.contents[n] == item.contents && n <= r.st.synced else r.st == st)
  {
    GetOrInsertKeepsStoreOk(t, st, item.summary, NoFault);
  }

  /** A one-checkpoint store never holds more than one checkpoint, nor the contents of more than one. */
  ghost predicate HoldsOne(st: Store) {
    && (forall m, n | m in st.checkpoints && n in st.checkpoints :: m == n)
    && (forall m, n | m in st.contents && n in st.contents :: m == n)
  }

  lemma GetOrInsertHoldsOne(t: Trust, st: Store, cp: Summary, verify: bool, fault: Fault)
    requires st.oneShot && HoldsOne(st)
    ensures var st' := GetOrInsertVerifiedCheckpoint(t, st, cp, verify, fault).st; st'.oneShot && HoldsOne(st')
  {
    assert HoldsOne(InsertCheckpoint(st, cp));
  }

  lemma ReplayOneHoldsOne(t: Trust, st: Store, item: Entry, verify: bool, fault: Fault)
    requires st.oneShot && HoldsOne(st)
    ensures var st' := ReplayOne(t, st, item, verify, fault).st; st'.oneShot && HoldsOne(st')
  {
    GetOrInsertHoldsOne(t, st, item.summary, verify, fault);
  }

  lemma {:induction false} ReplayHoldsOne(t: Trust, st: Store, items: seq<Item>, verify: bool)
    requires st.oneShot && HoldsOne(st)
    ensures HoldsOne(Replay(t, st, items, verify).st)
    decreases items
  {
    if items == [] {
    } else {
      ReplayOneHoldsOne(t, st, items[0].entry, verify, items[0].fault);
      var one := ReplayOne(t, st, items[0].entry, verify, items[0].fault);
      if one.outcome.Ok? { ReplayHoldsOne(t, one.st, items[1..], verify); }
    }
  }

  /** With verification off, a new checkpoint is stored whatever it says, beside those of a full store. */
  lemma UnverifiedIsStored(t: Trust, st: Store, cp: Summary)
    requires cp.seqNum !in st.checkpoints
    ensures var r := GetOrInsertVerifiedCheckpoint(t, st, cp, false, NoFault);
      && r.outcome == Ok(cp) && cp.seqNum in r.st.checkpoints && r.st.checkpoints[cp.seqNum] == cp
      && (!st.oneShot ==> forall n | n in st.checkpoints :: n in r.st.checkpoints && r.st.checkpoints[n] == st.checkpoints[n])
      && st.verified <= r.st.verified && cp.seqNum <= r.st.verified
  {}
}
