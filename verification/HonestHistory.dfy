/**
 * Honest histories, described by what nodes and committees do and not by what the reader verifies, and that the
 * reader accepts every one of them, across any number of epochs.
 */
module HonestHistory {
  import opened Prelude
  import opened ArchiveTypes
  import opened ArchiveProtocol
  import opened ArchiveInvariant
  import opened ManifestCheck
  import opened ArchiveRead
  import opened ArchiveReplay
  import opened ArchiveTheorems
  import opened ArchiveWatermarks
  import opened ArchiveRestore

  /** The committee of a checkpoint's epoch: the genesis one, or the one named by the last checkpoint before the epoch. */
  ghost function Signers(t: Trust, h: seq<Entry>, i: nat): Option<Committee>
    requires i < |h|
  {
    if i == 0 then Some(t.genesisCommittee)
    else if h[i].summary.epoch == h[i - 1].summary.epoch then Signers(t, h, i - 1)
    else h[i - 1].summary.nextCommittee
  }

  /** A checkpoint follows the one before: next number, its digest, and a new epoch exactly after a named committee. */
  ghost predicate Succeeds(t: Trust, a: Summary, b: Summary) {
    && b.seqNum == a.seqNum + 1
    && b.previousDigest == Some(t.digest(a))
    && b.epoch == (if a.nextCommittee.Some? then a.epoch + 1 else a.epoch)
  }

  ghost predicate HonestEntry(t: Trust, h: seq<Entry>, i: nat)
    requires i < |h|
  {
    var e := h[i];
    && t.contentsDigest(e.contents) == e.summary.contentDigest && t.effectsMatch(e.contents)
    && e.summary.epoch < U64_MAX
    && (i > 0 ==>
          && Succeeds(t, h[i - 1].summary, e.summary)
          && Signers(t, h, i).Some? && t.signedBy(Signers(t, h, i).value, e.summary))
  }

  ghost predicate Honest(t: Trust, h: seq<Entry>) {
    && h != [] && h[0].summary.seqNum == 0 && h[0].summary.epoch == 0
    && forall i | 0 <= i < |h| :: HonestEntry(t, h, i)
  }

  lemma {:induction false} HonestNumbers(t: Trust, h: seq<Entry>, i: nat)
    requires Honest(t, h) && i < |h|
    ensures h[i].summary.seqNum == i
  {
    assert HonestEntry(t, h, i);
    if i == 0 {
    } else {
      HonestNumbers(t, h, i - 1);
    }
  }

  /** Which committees a reader knows after `n` honest checkpoints: those of the epochs so far, and the one just named. */
  ghost predicate Knows(t: Trust, h: seq<Entry>, n: nat, committees: map<nat, Committee>)
    requires 0 < n <= |h|
  {
    var last := h[n - 1].summary;
    && last.epoch in committees && Some(committees[last.epoch]) == Signers(t, h, n - 1)
    && (last.nextCommittee.Some? ==> last.epoch + 1 in committees && committees[last.epoch + 1] == last.nextCommittee.value)
    && (forall e | e in committees :: e <= last.epoch + if last.nextCommittee.Some? then 1 else 0)
  }

  lemma {:induction false} HonestCommittees(t: Trust, h: seq<Entry>, n: nat)
    requires Honest(t, h) && 0 < n <= |h|
    ensures Knows(t, h, n, CommitteesAfter(t, Summaries(h), n))
  {
    assert HonestEntry(t, h, n - 1);
    var log := Summaries(h);
    assert CommitteesAfter(t, log, n) == InsertCommittee(CommitteesAfter(t, log, n - 1), log[n - 1]);
    if n == 1 {
      assert CommitteesAfter(t, log, 0) == map[0 := t.genesisCommittee];
    } else {
      HonestCommittees(t, h, n - 1);
    }
  }

  lemma HonestVerifies(t: Trust, h: seq<Entry>, i: nat)
    requires Honest(t, h) && 0 < i < |h|
    ensures Verified(t, Summaries(h), i)
  {
    assert HonestEntry(t, h, i) && HonestEntry(t, h, i - 1);
    HonestCommittees(t, h, i);
  }

  /** The reader accepts every honest history. */
  lemma HonestIsGenuine(t: Trust, h: seq<Entry>)
    requires Honest(t, h)
    ensures GenuineHistory(t, h)
  {
    forall i | 0 <= i < |h| ensures GenuineEntry(t, h, i) {
      assert HonestEntry(t, h, i);
      HonestNumbers(t, h, i);
    }
    forall i | 0 < i < |h| ensures Verified(t, Summaries(h), i) { HonestVerifies(t, h, i); }
  }

  /**
   * From genesis, through every epoch: in every reachable state of an archive of an honest history, reading with any
   * published manifest and replaying what is delivered restores exactly the history up to the manifest's end.
   */
  lemma HonestArchiveRestores(g: Config, t: Trust, s: System, m: Manifest, oneShot: bool, rs: Search, re: Search)
    returns (items: seq<Entry>, restored: Store)
    requires Sound(g) && Reachable(g, s) && m in s.published && m.next > 1 && Honest(t, g.h)
    requires VerifyManifest(m).Ok? ==> Answers(VerifyManifest(m).value, 1, rs) && Answers(VerifyManifest(m).value, U64_MAX, re)
    ensures ReadRange(g.c, s.remote, m, 1, U64_MAX, rs, re) == Ok(Delivery(items, false))
    ensures var r := Replay(t, GenesisStore(t, oneShot, g.h[0]), FaultFree(items), true); r.outcome.Ok? && r.st == restored
    ensures m.next <= |g.h| && Restored(g.h, restored, m.next)
  {
    HonestIsGenuine(t, g.h);
    GenesisTracks(t, g.h, oneShot);
    items, restored := ArchiveRestores(g, t, s, m, GenesisStore(t, oneShot, g.h[0]), 1, rs, re);
  }
}
