/**
 * `verify_archive_with_local_store`: each attempt reads from one past the synced watermark. The watermarks,
 * the retries, and where retrying with a store that keeps one checkpoint goes wrong.
 */
module ArchiveWatermarks {
  import opened Prelude
  import opened ArchiveTypes
  import opened ArchiveReplay

  ghost predicate Consecutive(items: seq<Item>, from: nat) {
    forall i | 0 <= i < |items| :: items[i].entry.summary.seqNum == from + i
  }

  /** At most one checkpoint is verified but not synced. */
  ghost predicate Resumable(st: Store) {
    st.verified <= st.synced + 1
  }

  /** A full store has the contents of everything up to the synced watermark. */
  ghost predicate NoGap(st: Store) {
    !st.oneShot ==> forall n | 0 <= n <= st.synced :: n in st.contents
  }

  lemma SyncNext(t: Trust, st: Store, item: Item)
    requires Resumable(st) && NoGap(st) && item.entry.summary.seqNum == st.synced + 1
    requires var got := GetOrInsertVerifiedCheckpoint(t, st, item.entry.summary, true, item.fault);
      got.outcome.Ok? ==> got.outcome.value.seqNum == st.synced + 1
    ensures var r := ReplayOne(t, st, item.entry, true, item.fault);
      && Resumable(r.st) && NoGap(r.st)
      && r.st.synced == (if r.outcome.Ok? then st.synced + 1 else st.synced)
  {
    GetOrInsertFrame(t, st, item.entry.summary, item.fault);
  }

  lemma ReplayNext(t: Trust, st: Store, item: Item)
    requires StoreOk(t, st) && Resumable(st) && NoGap(st) && item.entry.summary.seqNum == st.synced + 1
    ensures var r := ReplayOne(t, st, item.entry, true, item.fault);
      && Resumable(r.st) && NoGap(r.st)
      && r.st.synced == (if r.outcome.Ok? then st.synced + 1 else st.synced)
  {
    GetOrInsertKeepsStoreOk(t, st, item.entry.summary, item.fault);
    SyncNext(t, st, item);
  }

  /**
   * Reading consecutive checkpoints from one past the watermark: at every exit the watermark counts exactly
   * the checkpoints read, at most one more is verified, and no contents below it are missing.
   */
  lemma {:induction false} ReplayWatermarks(t: Trust, st: Store, items: seq<Item>)
    requires StoreOk(t, st) && Resumable(st) && NoGap(st) && Consecutive(items, st.synced + 1)
    ensures var r := Replay(t, st, items, true);
      && Resumable(r.st) && NoGap(r.st)
      && st.synced <= r.st.synced <= st.synced + |items|
      && (r.outcome.Ok? <==> r.st.synced == st.synced + |items|)
    decreases items
  {
    if items == [] {
    } else {
      ReplayNext(t, st, items[0]);
      ReplayOneKeepsStoreOk(t, st, items[0].entry, items[0].fault);
      var one := ReplayOne(t, st, items[0].entry, true, items[0].fault);
      if one.outcome.Ok? {
        ReplayWatermarks(t, one.st, items[1..]);
      }
    }
  }

  /**
   * An archive that leaves checkpoints out can open a gap after a failed attempt: an accepted item keeps the
   * contents complete exactly when it is not past the first checkpoint still to be synced.
   */
  lemma GapExactly(t: Trust, st: Store, item: Entry)
    requires StoreOk(t, st) && Resumable(st) && NoGap(st) && !st.oneShot
    requires ReplayOne(t, st, item, true, NoFault).outcome.Ok?
    ensures NoGap(ReplayOne(t, st, item, true, NoFault).st) <==>
            item.summary.seqNum <= st.synced + 1 || st.synced + 1 in st.contents
  {
    GetOrInsertKeepsStoreOk(t, st, item.summary, NoFault);
    GetOrInsertFrame(t, st, item.summary, NoFault);
    var got := GetOrInsertVerifiedCheckpoint(t, st, item.summary, true, NoFault);
    var st' := ReplayOne(t, st, item, true, NoFault).st;
    assert got.outcome.value.seqNum == item.summary.seqNum <= st.synced + 2;
    assert st'.contents == st.contents[item.summary.seqNum := item.contents];
    if item.summary.seqNum == st.synced + 2 && st.synced + 1 !in st.contents {
      assert st.synced + 1 !in st'.contents;
    }
  }

  // --- Reading back an archived history ---

  /** The store holds the summaries of a prefix of `h` and contents of `h` only. */
  ghost predicate Mirrors(h: seq<Entry>, st: Store) {
    && |st.log| <= |h|
    && st.log == Summaries(h)[..|st.log|]
    && (forall n | n in st.contents :: n < |h| && st.contents[n] == h[n].contents)
  }

  /** A history that verifies against itself, as one served by an honest node does. */
  ghost predicate GenuineHistory(t: Trust, h: seq<Entry>) {
    && ChainOk(t, Summaries(h))
    && (forall i | 0 <= i < |h| :: GenuineEntry(t, h, i))
  }

  ghost predicate GenuineEntry(t: Trust, h: seq<Entry>, i: nat)
    requires i < |h|
  {
    h[i].summary.seqNum == i && VerifyDigests(t, h[i].contents, h[i].summary.contentDigest)
  }

  function FaultAt(faults: map<nat, Fault>, n: nat): Fault {
    if n in faults then faults[n] else NoFault
  }

  /** The items an attempt is given when the archive is read from `from` up to `upto`. */
  function SourceItems(h: seq<Entry>, from: nat, upto: nat, faults: map<nat, Fault>): (r: seq<Item>)
    requires from <= upto <= |h|
    ensures |r| == upto - from
    decreases upto - from
  {
    if from == upto then [] else [Item(h[from], FaultAt(faults, from))] + SourceItems(h, from + 1, upto, faults)
  }

  lemma {:induction false} CommitteesAfterAgree(t: Trust, a: seq<Summary>, b: seq<Summary>, n: nat)
    requires n <= |a| && n <= |b| && a[..n] == b[..n]
    ensures CommitteesAfter(t, a, n) == CommitteesAfter(t, b, n)
  {
    if n == 0 {
    } else {
      assert a[..n - 1] == a[..n][..n - 1] && b[..n - 1] == b[..n][..n - 1];
      assert a[n - 1] == a[..n][n - 1] && b[n - 1] == b[..n][n - 1];
      CommitteesAfterAgree(t, a, b, n - 1);
    }
  }

  /** The next checkpoint of a genuine history passes verification in a store that mirrors it. */
  lemma GenuineNextVerifies(t: Trust, h: seq<Entry>, st: Store)
    requires GenuineHistory(t, h) && StoreOk(t, st) && Mirrors(h, st) && |st.log| < |h|
    ensures VerifyCheckpoint(t, st.committees, st.log[|st.log| - 1], h[|st.log|].summary).Ok?
  {
    var n := |st.log|;
    assert st.log == Summaries(h)[..n];
    CommitteesAfterAgree(t, st.log, Summaries(h), n);
    assert Verified(t, Summaries(h), n);
  }

  /** A store filled from `h` that can be read into from one past its synced watermark. */
  ghost predicate Tracks(t: Trust, h: seq<Entry>, st: Store) {
    StoreOk(t, st) && Resumable(st) && NoGap(st) && Mirrors(h, st)
  }

  lemma GetMirrors(t: Trust, h: seq<Entry>, st: Store, fault: Fault)
    requires GenuineHistory(t, h) && StoreOk(t, st) && Resumable(st) && Mirrors(h, st) && st.synced + 1 < |h|
    ensures var got := GetOrInsertVerifiedCheckpoint(t, st, h[st.synced + 1].summary, true, fault);
      && Mirrors(h, got.st)
      && (got.outcome.Ok? ==> got.outcome.value == h[st.synced + 1].summary)
      && (fault == NoFault ==> got.outcome.Ok?)
      && (got.outcome.Panicked? ==> fault == UpdateVerifiedFails)
  {
    assert GenuineEntry(t, h, st.synced + 1);
    if st.synced + 1 !in st.checkpoints {
      assert |st.log| == st.synced + 1;
      GenuineNextVerifies(t, h, st);
      assert Summaries(h)[..|st.log| + 1] == st.log + [h[|st.log|].summary];
    } else {
      assert st.log[st.synced + 1] == Summaries(h)[st.synced + 1];
    }
  }

  lemma ContentsMirror(h: seq<Entry>, st: Store, cp: Summary, synced: nat)
    requires Mirrors(h, st) && cp.seqNum < |h|
    ensures Mirrors(h, InsertContents(st, cp, h[cp.seqNum].contents).(synced := synced))
  {}

  lemma MirrorNext(t: Trust, h: seq<Entry>, st: Store, fault: Fault)
    requires GenuineHistory(t, h) && StoreOk(t, st) && Resumable(st) && Mirrors(h, st) && st.synced + 1 < |h|
    ensures var r := ReplayOne(t, st, h[st.synced + 1], true, fault);
      Mirrors(h, r.st) && (fault == NoFault ==> r.outcome.Ok?) && (r.outcome.Panicked? ==> fault == UpdateVerifiedFails)
  {
    var e := h[st.synced + 1];
    assert e.summary.seqNum == st.synced + 1 && VerifyDigests(t, e.contents, e.summary.contentDigest) by {
      assert GenuineEntry(t, h, st.synced + 1);
    }
    GetMirrors(t, h, st, fault);
    var r := ReplayOne(t, st, e, true, fault);
    var got := GetOrInsertVerifiedCheckpoint(t, st, e.summary, true, fault);
    if got.outcome.Ok? && fault != InsertContentsFails {
      ContentsMirror(h, got.st, e.summary, r.st.synced);
      assert r.st == InsertContents(got.st, e.summary, e.contents).(synced := r.st.synced);
    }
  }

  lemma TrackNext(t: Trust, h: seq<Entry>, st: Store, fault: Fault)
    requires GenuineHistory(t, h) && Tracks(t, h, st) && st.synced + 1 < |h|
    ensures var r := ReplayOne(t, st, h[st.synced + 1], true, fault);
      && Tracks(t, h, r.st)
      && r.st.synced == (if r.outcome.Ok? then st.synced + 1 else st.synced)
      && (fault == NoFault ==> r.outcome.Ok?)
      && (r.outcome.Panicked? ==> fault == UpdateVerifiedFails)
  {
    var e := h[st.synced + 1];
    assert GenuineEntry(t, h, st.synced + 1);
    ReplayNext(t, st, Item(e, fault));
    ReplayOneKeepsStoreOk(t, st, e, fault);
    MirrorNext(t, h, st, fault);
  }

  /** Reading checkpoints `n..upto` of `h` one after the other. */
  function ReadSource(t: Trust, h: seq<Entry>, st: Store, n: nat, upto: nat, faults: map<nat, Fault>): Stepped<()>
    requires upto <= |h|
    decreases upto - n
  {
    if n >= upto then Stepped(st, Ok(()))
    else
      var one := ReplayOne(t, st, h[n], true, FaultAt(faults, n));
      if one.outcome.Ok? then ReadSource(t, h, one.st, n + 1, upto, faults) else one
  }

  lemma {:induction false} ReadSourceIsReplay(t: Trust, h: seq<Entry>, st: Store, n: nat, upto: nat, faults: map<nat, Fault>)
    requires n <= upto <= |h|
    ensures ReadSource(t, h, st, n, upto, faults) == Replay(t, st, SourceItems(h, n, upto, faults), true)
    decreases upto - n
  {
    if n == upto {
    } else {
      var one := ReplayOne(t, st, h[n], true, FaultAt(faults, n));
      assert SourceItems(h, n, upto, faults)[1..] == SourceItems(h, n + 1, upto, faults);
      if one.outcome.Ok? { ReadSourceIsReplay(t, h, one.st, n + 1, upto, faults); }
    }
  }

  /** What one step of reading `h` guarantees when `good` describes the stores it starts from. */
  ghost predicate StepsWell(t: Trust, h: seq<Entry>, good: Store -> bool, st: Store, fault: Fault) {
    good(st) && st.synced + 1 < |h| ==>
      var r := ReplayOne(t, st, h[st.synced + 1], true, fault);
      && good(r.st)
      && r.st.synced == (if r.outcome.Ok? then st.synced + 1 else st.synced)
      && (fault == NoFault ==> r.outcome.Ok?)
      && (r.outcome.Panicked? ==> fault == UpdateVerifiedFails)
  }

  /** The store panics on some update of its verified watermark. */
  ghost predicate VerifiedFaulty(faults: map<nat, Fault>) {
    exists n | n in faults :: faults[n] == UpdateVerifiedFails
  }

  lemma {:induction false} ReplayByStep(
    t: Trust, h: seq<Entry>, good: Store -> bool, st: Store, upto: nat, faults: map<nat, Fault>)
    requires forall s, fault :: StepsWell(t, h, good, s, fault)
    requires good(st) && st.synced + 1 <= upto <= |h|
    ensures var r := ReadSource(t, h, st, st.synced + 1, upto, faults);
      && good(r.st)
      && st.synced <= r.st.synced < upto
      && (r.outcome.Ok? <==> r.st.synced == upto - 1)
      && (faults == map[] ==> r.outcome.Ok?)
      && (r.outcome.Panicked? ==> VerifiedFaulty(faults))
    decreases upto - st.synced
  {
    if st.synced + 1 == upto {
    } else {
      var fault := FaultAt(faults, st.synced + 1);
      assert StepsWell(t, h, good, st, fault);
      var one := ReplayOne(t, st, h[st.synced + 1], true, fault);
      if one.outcome.Ok? { ReplayByStep(t, h, good, one.st, upto, faults); }
    }
  }

  // --- Attempts ---

  /** One attempt: the archive offers checkpoints below `upto` before it ends or a download fails. */
  datatype Attempt = Attempt(upto: nat, faults: map<nat, Fault>)

  /** Reading the synced watermark looks the checkpoint up; a store that no longer holds it panics. */
  function VerifyArchive(t: Trust, h: seq<Entry>, st: Store, a: Attempt): Stepped<()>
    requires a.upto <= |h|
  {
    if st.synced !in st.checkpoints then Stepped(st, Panicked)
    else if a.upto <= st.synced + 1 then Stepped(st, Err)
    else ReadSource(t, h, st, st.synced + 1, a.upto, a.faults)
  }

  /** The store after a sequence of attempts; a panic ends the process. */
  function Retry(t: Trust, h: seq<Entry>, st: Store, attempts: seq<Attempt>): Stepped<()>
    requires forall i | 0 <= i < |attempts| :: attempts[i].upto <= |h|
    decreases attempts
  {
    if attempts == [] then Stepped(st, Ok(()))
    else
      var r := VerifyArchive(t, h, st, attempts[0]);
      if r.outcome.Panicked? then r else Retry(t, h, r.st, attempts[1..])
  }

  /** An attempt keeps a good store good and, without faults, syncs everything the archive offers. */
  lemma VerifyArchiveByStep(t: Trust, h: seq<Entry>, good: Store -> bool, st: Store, a: Attempt)
    requires forall s, fault :: StepsWell(t, h, good, s, fault)
    requires good(st) && a.upto <= |h|
    ensures var r := VerifyArchive(t, h, st, a);
      && good(r.st)
      && st.synced <= r.st.synced
      && (st.synced !in st.checkpoints ==> r.outcome.Panicked?)
      && (r.outcome.Panicked? ==> st.synced !in st.checkpoints || VerifiedFaulty(a.faults))
      && (!r.outcome.Panicked? && a.faults == map[] ==>
            && (r.outcome.Ok? <==> st.synced + 1 < a.upto)
            && r.st.synced + 1 == if st.synced + 1 < a.upto then a.upto else st.synced + 1)
  {
    if st.synced + 1 < a.upto { ReplayByStep(t, h, good, st, a.upto, a.faults); }
  }

  lemma {:induction false} RetryByStep(t: Trust, h: seq<Entry>, good: Store -> bool, st: Store, attempts: seq<Attempt>)
    requires forall s, fault :: StepsWell(t, h, good, s, fault)
    requires forall i | 0 <= i < |attempts| :: attempts[i].upto <= |h|
    requires good(st)
    ensures good(Retry(t, h, st, attempts).st) && st.synced <= Retry(t, h, st, attempts).st.synced
    decreases attempts
  {
    if attempts == [] {
    } else {
      VerifyArchiveByStep(t, h, good, st, attempts[0]);
      var r := VerifyArchive(t, h, st, attempts[0]);
      if !r.outcome.Panicked? { RetryByStep(t, h, good, r.st, attempts[1..]); }
    }
  }

  /**
   * However many attempts are made over a genuine archived history, whatever fails in them: the store tracks
   * the history, the synced watermark never regresses, no contents below it are missing.
   */
  lemma RetriesTrack(t: Trust, h: seq<Entry>, st: Store, attempts: seq<Attempt>)
    requires GenuineHistory(t, h) && Tracks(t, h, st)
    requires forall i | 0 <= i < |attempts| :: attempts[i].upto <= |h|
    ensures Tracks(t, h, Retry(t, h, st, attempts).st) && st.synced <= Retry(t, h, st, attempts).st.synced
  {
    var good := (s: Store) => Tracks(t, h, s);
    forall s, fault ensures StepsWell(t, h, good, s, fault) {
      if good(s) && s.synced + 1 < |h| { TrackNext(t, h, s, fault); }
    }
    RetryByStep(t, h, good, st, attempts);
  }

  /**
   * A further attempt in any such state, if the store does not panic by itself, panics exactly when the synced
   * checkpoint is no longer held.
   */
  lemma AttemptOutcome(t: Trust, h: seq<Entry>, st: Store, a: Attempt)
    requires GenuineHistory(t, h) && Tracks(t, h, st) && a.upto <= |h|
    ensures var r := VerifyArchive(t, h, st, a);
      && (!VerifiedFaulty(a.faults) ==> (r.outcome.Panicked? <==> st.oneShot && st.verified != st.synced))
      && (!r.outcome.Panicked? && a.faults == map[] ==>
            && (r.outcome.Ok? <==> st.synced + 1 < a.upto)
            && r.st.synced + 1 == if st.synced + 1 < a.upto then a.upto else st.synced + 1)
  {
    var good := (s: Store) => Tracks(t, h, s);
    forall s, fault ensures StepsWell(t, h, good, s, fault) {
      if good(s) && s.synced + 1 < |h| { TrackNext(t, h, s, fault); }
    }
    VerifyArchiveByStep(t, h, good, st, a);
    assert st.synced in st.checkpoints <==> !st.oneShot || st.verified == st.synced;
  }

  /** `insert_genesis_state` on an empty store. */
  function GenesisStore(t: Trust, oneShot: bool, genesis: Entry): Store {
    Store(oneShot, map[genesis.summary.seqNum := genesis.summary], map[genesis.summary.seqNum := genesis.contents],
          InsertCommittee(map[0 := t.genesisCommittee], genesis.summary), 0, 0, [genesis.summary])
  }

  lemma GenesisTracks(t: Trust, h: seq<Entry>, oneShot: bool)
    requires GenuineHistory(t, h)
    ensures Tracks(t, h, GenesisStore(t, oneShot, h[0]))
  {
    var st := GenesisStore(t, oneShot, h[0]);
    assert GenuineEntry(t, h, 0);
    assert CommitteesAfter(t, st.log, 1) == InsertCommittee(CommitteesAfter(t, st.log, 0), st.log[0]);
    assert st.checkpoints == Held(oneShot, st.log);
    assert st.log == Summaries(h)[..1];
  }

  /**
   * With a store that keeps one checkpoint, a failure on the next item makes every later attempt panic exactly
   * when the item's summary was accepted and stored before its contents or a watermark failed.
   */
  lemma OneShotRetryLost(t: Trust, h: seq<Entry>, st: Store, item: Item)
    requires StoreOk(t, st) && st.oneShot && st.verified == st.synced && item.entry.summary.seqNum == st.synced + 1
    ensures var st' := ReplayOne(t, st, item.entry, true, item.fault).st;
      (forall a: Attempt | a.upto <= |h| :: VerifyArchive(t, h, st', a).outcome.Panicked?)
      <==>
      && VerifyCheckpoint(t, st.committees, st.checkpoints[st.synced], item.entry.summary).Ok?
      && item.fault != InsertCheckpointFails
      && (!VerifyDigests(t, item.entry.contents, item.entry.summary.contentDigest) || item.fault != NoFault)
  {
    var st' := ReplayOne(t, st, item.entry, true, item.fault).st;
    if st'.synced in st'.checkpoints {
      assert !VerifyArchive(t, h, st', Attempt(0, map[])).outcome.Panicked?;
    }
  }

  // --- Both failures happen ---

  /** A summary goes in and its contents do not. */
  lemma ContentsFail(t: Trust, h: seq<Entry>, st: Store)
    requires GenuineHistory(t, h) && Tracks(t, h, st) && st.verified == st.synced && st.synced + 1 < |h|
    ensures var r := ReplayOne(t, st, h[st.synced + 1], true, InsertContentsFails);
      r.outcome.Err? && r.st == InsertCheckpoint(st, h[st.synced + 1].summary)
  {
    assert GenuineEntry(t, h, st.synced + 1);
    GenuineNextVerifies(t, h, st);
  }

  /** The checkpoint after it is accepted, and the synced watermark jumps over the missing contents. */
  lemma SkipsContents(t: Trust, h: seq<Entry>, st: Store)
    requires GenuineHistory(t, h) && Tracks(t, h, st) && st.verified == st.synced + 1 && st.synced + 2 < |h|
    requires !st.oneShot && st.synced + 1 !in st.contents
    ensures var r := ReplayOne(t, st, h[st.synced + 2], true, NoFault);
      r.outcome.Ok? && r.st.synced == st.synced + 2 && !NoGap(r.st)
  {
    assert GenuineEntry(t, h, st.synced + 2);
    GenuineNextVerifies(t, h, st);
    assert st.synced + 1 !in ReplayOne(t, st, h[st.synced + 2], true, NoFault).st.contents;
  }

  /** In every genuine history of three checkpoints, a failed insert and a skipped checkpoint open a gap. */
  lemma GapOpens(t: Trust, h: seq<Entry>)
    requires GenuineHistory(t, h) && |h| >= 3
    ensures var one := ReplayOne(t, GenesisStore(t, false, h[0]), h[1], true, InsertContentsFails);
      var two := ReplayOne(t, one.st, h[2], true, NoFault);
      one.outcome.Err? && two.outcome.Ok? && two.st.synced == 2 && !NoGap(two.st)
  {
    var st := GenesisStore(t, false, h[0]);
    assert Tracks(t, h, st) && st.verified == 0 && st.synced == 0 && 1 !in st.contents by {
      GenesisTracks(t, h, false);
      assert GenuineEntry(t, h, 0);
    }
    ContentsFail(t, h, st);
    TrackNext(t, h, st, InsertContentsFails);
    var one := InsertCheckpoint(st, h[1].summary);
    assert one.verified == 1 by { assert GenuineEntry(t, h, 1); }
    SkipsContents(t, h, one);
  }

  /** In every genuine history of two checkpoints, contents that do not match leave a one-checkpoint store panicking for good. */
  lemma OneShotLosesRetry(t: Trust, h: seq<Entry>, contents: Contents)
    requires GenuineHistory(t, h) && |h| >= 2 && !VerifyDigests(t, contents, h[1].summary.contentDigest)
    ensures var one := ReplayOne(t, GenesisStore(t, true, h[0]), Entry(h[1].summary, contents), true, NoFault);
      one.outcome.Err? && forall a: Attempt | a.upto <= |h| :: VerifyArchive(t, h, one.st, a).outcome.Panicked?
  {
    var st := GenesisStore(t, true, h[0]);
    GenesisTracks(t, h, true);
    assert GenuineEntry(t, h, 0) && GenuineEntry(t, h, 1);
    GenuineNextVerifies(t, h, st);
    OneShotRetryLost(t, h, st, Item(Entry(h[1].summary, contents), NoFault));
  }
}
