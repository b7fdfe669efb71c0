/** `commit_file_size`: how large a content file can get. */
module ArchiveSizes {
  import opened Prelude
  import opened ArchiveTypes
  import opened ArchiveWriter
  import opened ArchiveProtocol
  import opened ArchiveInvariant
  import opened ArchiveTheorems

  /** The bytes the blobs of these checkpoints take in a content file. */
  ghost function BlobBytes(c: Codec, entries: seq<Entry>): nat {
    if entries == [] then 0 else BlobBytes(c, entries[..|entries| - 1]) + c.blobSize(entries[|entries| - 1].contents)
  }

  /** The blobs fit in the limit, or there is just one. */
  ghost predicate Fits(g: Config, entries: seq<Entry>) {
    |entries| == 1 || BlobBytes(g.c, entries) <= g.commitSize
  }

  /**
   * The offset counts the blobs, and the magic only in reopened files; a pair of two checkpoints or more is within
   * the limit by that count.
   */
  ghost predicate OffsetOk(g: Config, w: Writer) {
    && w.offset == BlobBytes(g.c, w.pending) + (if w.reopened then MAGIC_BYTES else 0)
    && (|w.pending| >= 2 ==> w.offset <= g.commitSize)
  }

  /** The open files belong to the history. */
  ghost predicate Window(g: Config, w: Writer) {
    w.start <= w.end <= |g.h| && w.pending == g.h[w.start..w.end]
  }

  /** The pair `w` has open is the one `f` describes. */
  ghost predicate OpenPair(g: Config, w: Writer, f: FileMetadata) {
    w.start == f.start && w.end == f.end && w.epoch == f.epoch && Window(g, w) && OffsetOk(g, w)
  }

  /** `f` was the open pair of a reachable state, which is what was committed. */
  ghost predicate WasOpen(g: Config, f: FileMetadata) {
    exists s: System :: OpenIn(g, s, f)
  }

  ghost predicate OpenIn(g: Config, s: System, f: FileMetadata) {
    Reachable(g, s) && s.writer.Some? && OpenPair(g, s.writer.value, f)
  }

  ghost predicate AllOpen(g: Config, m: Manifest) {
    forall i | 0 <= i < |m.files| :: WasOpen(g, m.files[i])
  }

  /** Should the open pair be committed, it was open in a reachable state. */
  ghost predicate CanCommit(g: Config, w: Writer) {
    w.start < w.end ==> WasOpen(g, ContentMetadata(g.c, w)) && WasOpen(g, SummaryMetadata(g.c, w))
  }

  ghost predicate IoFits(g: Config, io: WriterIO) {
    && OffsetOk(g, io.w) && Window(g, io.w) && AllOpen(g, io.w.manifest)
    && (forall i | 0 <= i < |io.queue| :: AllOpen(g, io.queue[i].manifest))
  }

  lemma CommitFits(g: Config, io: WriterIO)
    requires IoFits(g, io) && CanCommit(g, io.w)
    ensures IoFits(g, Reset(Cut(g.c, io))) && CanCommit(g, Reset(Cut(g.c, io)).w)
  {}

  lemma AppendFits(g: Config, io: WriterIO)
    requires IoFits(g, io) && io.w.end < |g.h|
    requires io.w.offset + g.c.blobSize(g.h[io.w.end].contents) <= g.commitSize || io.w.pending == []
    ensures IoFits(g, Append(g.c, io, g.h[io.w.end]))
  {
    var e := g.h[io.w.end];
    assert (io.w.pending + [e])[..|io.w.pending|] == io.w.pending;
    assert g.h[io.w.start..io.w.end + 1] == io.w.pending + [e];
  }

  lemma AtEpochFits(g: Config, io: WriterIO, e: Entry)
    requires IoFits(g, io) && CanCommit(g, io.w)
    ensures var io' := AtEpoch(g.c, io, e); IoFits(g, io') && CanCommit(g, io'.w) && io'.w.end == io.w.end
  {
    CommitFits(g, io);
  }

  lemma MakeRoomFits(g: Config, io: WriterIO, e: Entry, elapsed: bool)
    requires IoFits(g, io) && CanCommit(g, io.w)
    ensures var io' := MakeRoom(g.c, g.commitSize, io, e, elapsed);
      && IoFits(g, io') && io'.w.end == io.w.end
      && (io'.w.offset + g.c.blobSize(e.contents) <= g.commitSize || io'.w.pending == [])
  {
    CommitFits(g, io);
  }

  /** What an accepted write leaves. */
  ghost function Written(g: Config, io: WriterIO, e: Entry, elapsed: bool): WriterIO {
    Append(g.c, MakeRoom(g.c, g.commitSize, AtEpoch(g.c, io, e), e, elapsed), e)
  }

  lemma WriteFits(g: Config, io: WriterIO, elapsed: bool)
    requires IoFits(g, io) && CanCommit(g, io.w) && io.w.end < |g.h|
    ensures IoFits(g, Written(g, io, g.h[io.w.end], elapsed))
  {
    var e := g.h[io.w.end];
    AtEpochFits(g, io, e);
    MakeRoomFits(g, AtEpoch(g.c, io, e), e, elapsed);
    AppendFits(g, MakeRoom(g.c, g.commitSize, AtEpoch(g.c, io, e), e, elapsed));
  }

  ghost predicate SizesOk(g: Config, s: System) {
    && (s.writer.Some? ==> IoFits(g, WriterIO(s.writer.value, s.local, s.queue)))
    && (!s.syncing.Idle? ==> AllOpen(g, s.syncing.update.manifest))
    && (forall i | 0 <= i < |s.queue| :: AllOpen(g, s.queue[i].manifest))
    && (forall k | 0 <= k < |s.published| :: AllOpen(g, s.published[k]))
  }

  lemma StartSizes(g: Config, s: System)
    requires Sound(g) && Inv(g, s) && s.writer.None? && SizesOk(g, s)
    ensures SizesOk(g, Apply(g, s, Start))
  {
    var cuts :| InvWith(g, s, cuts);
    RecoveredIsLastPublished(g, s, cuts);
    ManifestAtNextAndEpoch(g, cuts, |s.published|);
    if CanRestart(s) {
      var m := ManifestAt(g, cuts, |s.published|);
      if s.published != [] { assert m == s.published[|s.published| - 1]; }
      assert AllOpen(g, m);
      assert g.h[m.next..m.next] == [];
    }
  }

  lemma SyncSizes(g: Config, s: System, step: Step)
    requires SizesOk(g, s) && Enabled(g, s, step) && !step.WriteNext? && !step.Start?
    ensures SizesOk(g, Apply(g, s, step))
  {}

  lemma WriteSizes(g: Config, s: System, elapsed: bool)
    requires Reachable(g, s) && SizesOk(g, s) && Enabled(g, s, WriteNext(elapsed))
    ensures SizesOk(g, Apply(g, s, WriteNext(elapsed)))
  {
    var w := s.writer.value;
    assert OpenIn(g, s, ContentMetadata(g.c, w)) && OpenIn(g, s, SummaryMetadata(g.c, w));
    WriteFits(g, WriterIO(w, s.local, s.queue), elapsed);
    assert Tail(g, s, elapsed).Ok? ==> Tail(g, s, elapsed).value == Written(g, WriterIO(w, s.local, s.queue), g.h[w.end], elapsed);
  }

  lemma StepSizes(g: Config, s: System, step: Step)
    requires Sound(g) && Reachable(g, s) && SizesOk(g, s) && Enabled(g, s, step)
    ensures SizesOk(g, Apply(g, s, step))
  {
    if step.WriteNext? {
      WriteSizes(g, s, step.elapsed);
    } else if step.Start? {
      ReachableInv(g, s);
      StartSizes(g, s);
    } else {
      SyncSizes(g, s, step);
    }
  }

  lemma {:induction false} RunSizes(g: Config, s: System, steps: seq<Step>)
    requires Sound(g) && Reachable(g, s) && SizesOk(g, s) && Run(g, s, steps).Some?
    ensures SizesOk(g, Run(g, s, steps).value)
    decreases steps
  {
    if steps == [] {
    } else {
      StepSizes(g, s, steps[0]);
      var s' := ReachableStep(g, s, steps[0]);
      RunSizes(g, s', steps[1..]);
    }
  }

  lemma ReachableSizes(g: Config, s: System)
    requires Sound(g) && Reachable(g, s)
    ensures SizesOk(g, s)
  {
    var steps :| Run(g, INITIAL, steps) == Some(s);
    assert Run(g, INITIAL, []) == Some(INITIAL);
    RunSizes(g, INITIAL, steps);
  }

  /**
   * In every reachable state the tracked offset is the bytes of the blobs, four more in a reopened pair, and within
   * `commit_file_size` once there are two checkpoints.
   */
  lemma OpenPairFits(g: Config, s: System)
    requires Sound(g) && Reachable(g, s) && s.writer.Some?
    ensures OffsetOk(g, s.writer.value)
  {
    ReachableSizes(g, s);
  }

  /**
   * Over all blob sizes, timeouts, epoch changes, crashes and restarts: every file of every published manifest was
   * the open pair of a reachable state; its offset there was within `commit_file_size`, and so are its blobs,
   * unless the file holds a single checkpoint.
   */
  lemma PublishedFilesFit(g: Config, s: System, m: Manifest, f: FileMetadata) returns (open: System)
    requires Sound(g) && Reachable(g, s) && m in s.published && f in m.files
    ensures f.start < f.end <= |g.h| && Fits(g, g.h[f.start..f.end])
    ensures OpenIn(g, open, f)
    ensures f.end - f.start >= 2 ==> open.writer.value.offset <= g.commitSize
  {
    ReachableSizes(g, s);
    ReachableInv(g, s);
    var cuts, n := PublishedLists(g, s, m);
    var j := EntryOfCut(g, cuts, n, f);
    assert GoodCut(g.h, cuts[j]);
    var k :| 0 <= k < |s.published| && s.published[k] == m;
    var i :| 0 <= i < |m.files| && m.files[i] == f;
    assert WasOpen(g, s.published[k].files[i]);
    open :| OpenIn(g, open, f);
  }
}
