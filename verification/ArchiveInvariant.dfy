/** The inductive invariant of the archive protocol, and that every step keeps it. */
module ArchiveInvariant {
  import opened Prelude
  import opened ArchiveTypes
  import opened ArchiveWriter
  import opened ArchiveProtocol

  /** One pair of files: checkpoints `start..end`, all of one epoch. */
  datatype CutRange = CutRange(epoch: nat, start: nat, end: nat)

  ghost predicate GoodCut(h: seq<Entry>, cut: CutRange) {
    && cut.start < cut.end <= |h|
    && forall j | cut.start <= j < cut.end :: h[j].summary.epoch == cut.epoch
  }

  /** Where the first `n` cuts end. */
  ghost function EndAt(cuts: seq<CutRange>, n: nat): nat
    requires n <= |cuts|
  {
    if n == 0 then 0 else cuts[n - 1].end
  }

  ghost predicate Follows(cuts: seq<CutRange>, i: nat)
    requires i < |cuts|
  {
    cuts[i].start == EndAt(cuts, i)
  }

  /** Cuts that tile the history from checkpoint zero. */
  ghost predicate GoodCuts(h: seq<Entry>, cuts: seq<CutRange>) {
    && (forall i | 0 <= i < |cuts| :: GoodCut(h, cuts[i]))
    && (forall i | 0 <= i < |cuts| :: Follows(cuts, i))
  }

  ghost function Slice(h: seq<Entry>, cut: CutRange): seq<Entry>
    requires GoodCut(h, cut)
  {
    h[cut.start..cut.end]
  }

  ghost function ContentOf(g: Config, cut: CutRange): FileMetadata
    requires GoodCut(g.h, cut)
  {
    FileMetadata(ContentKind, cut.epoch, cut.start, cut.end, g.c.sha3(g.c.contentFile(Slice(g.h, cut))))
  }

  ghost function SummaryOf(g: Config, cut: CutRange): FileMetadata
    requires GoodCut(g.h, cut)
  {
    FileMetadata(SummaryKind, cut.epoch, cut.start, cut.end, g.c.sha3(g.c.summaryFile(Slice(g.h, cut))))
  }

  /** The manifest after exactly the first `n` cuts. */
  ghost function ManifestAt(g: Config, cuts: seq<CutRange>, n: nat): Manifest
    requires GoodCuts(g.h, cuts) && n <= |cuts|
  {
    if n == 0 then NewManifest(0, 0)
    else
      var cut := cuts[n - 1];
      ManifestAt(g, cuts, n - 1).Update(cut.epoch, cut.end, ContentOf(g, cut), SummaryOf(g, cut))
  }

  ghost function UpdateOf(g: Config, cuts: seq<CutRange>, j: nat): CheckpointUpdates
    requires GoodCuts(g.h, cuts) && j < |cuts|
  {
    CheckpointUpdates(ContentOf(g, cuts[j]), SummaryOf(g, cuts[j]), ManifestAt(g, cuts, j + 1))
  }

  /** Starts strictly increase, so no two cuts share a path. */
  lemma {:induction false} StartsIncrease(h: seq<Entry>, cuts: seq<CutRange>, i: nat, j: nat)
    requires GoodCuts(h, cuts) && i < j < |cuts|
    ensures cuts[i].end <= cuts[j].start
    decreases j
  {
    assert Follows(cuts, j);
    if i == j - 1 {
    } else {
      StartsIncrease(h, cuts, i, j - 1);
    }
  }

  ghost predicate HoldsContent(g: Config, files: map<Path, Bytes>, cut: CutRange)
    requires GoodCut(g.h, cut)
  {
    var p := Path(cut.epoch, cut.start, ContentKind);
    p in files && files[p] == g.c.contentFile(Slice(g.h, cut))
  }

  ghost predicate HoldsSummary(g: Config, files: map<Path, Bytes>, cut: CutRange)
    requires GoodCut(g.h, cut)
  {
    var p := Path(cut.epoch, cut.start, SummaryKind);
    p in files && files[p] == g.c.summaryFile(Slice(g.h, cut))
  }

  /** Updates already taken from the channel but not yet published. */
  ghost function InFlight(syncing: Syncing): nat {
    if syncing.Idle? then 0 else 1
  }

  /** The k-th published manifest lists exactly the first k + 1 cuts. */
  ghost predicate PublishedOk(g: Config, published: seq<Manifest>, cuts: seq<CutRange>)
    requires GoodCuts(g.h, cuts)
  {
    && |published| <= |cuts|
    && (forall k | 0 <= k < |published| :: published[k] == ManifestAt(g, cuts, k + 1))
  }

  /** The files of the first `p` cuts are in the remote store. */
  ghost predicate ArchivedOk(g: Config, p: nat, remote: map<Path, Bytes>, cuts: seq<CutRange>)
    requires GoodCuts(g.h, cuts) && p <= |cuts|
  {
    forall j | 0 <= j < p :: HoldsContent(g, remote, cuts[j]) && HoldsSummary(g, remote, cuts[j])
  }

  /** The remote manifest is the last one published; the cached one was remote once, or is the empty one. */
  ghost predicate HeadOk(g: Config, published: seq<Manifest>, manifest: Option<Bytes>, cache: Manifest) {
    && manifest == (if published == [] then None else Some(g.c.encodeManifest(published[|published| - 1])))
    && (cache == NewManifest(0, 0) || cache in published)
  }

  /** The channel and the syncing task hold exactly the cuts from `p` on, in order. */
  ghost predicate QueueOk(g: Config, p: nat, syncing: Syncing, queue: seq<CheckpointUpdates>, cuts: seq<CutRange>)
    requires GoodCuts(g.h, cuts)
  {
    var q := p + InFlight(syncing);
    && |cuts| == q + |queue|
    && (forall i | 0 <= i < |queue| :: queue[i] == UpdateOf(g, cuts, q + i))
    && (!syncing.Idle? ==> syncing.update == UpdateOf(g, cuts, p))
  }

  /** Every file still to be uploaded is on local disk, and the ones just uploaded are in the remote store. */
  ghost predicate StagedOk(
    g: Config, p: nat, syncing: Syncing, local: map<Path, Bytes>, remote: map<Path, Bytes>, cuts: seq<CutRange>)
    requires GoodCuts(g.h, cuts) && p + InFlight(syncing) <= |cuts|
  {
    && (forall j | p + InFlight(syncing) <= j < |cuts| :: HoldsContent(g, local, cuts[j]) && HoldsSummary(g, local, cuts[j]))
    && (syncing.Fetched? ==> HoldsContent(g, local, cuts[p]) && HoldsSummary(g, local, cuts[p]))
    && (syncing.SummaryUploaded? ==> HoldsContent(g, local, cuts[p]) && HoldsSummary(g, remote, cuts[p]))
    && (syncing.ContentUploaded? ==> HoldsContent(g, remote, cuts[p]) && HoldsSummary(g, remote, cuts[p]))
  }

  ghost predicate WriterOk(g: Config, w: Writer, cuts: seq<CutRange>)
    requires GoodCuts(g.h, cuts)
  {
    && w.manifest == ManifestAt(g, cuts, |cuts|)
    && w.start == EndAt(cuts, |cuts|)
    && w.start <= w.end <= |g.h|
    && w.pending == g.h[w.start..w.end]
    && EpochBefore(g.h, w.end) <= w.epoch
    && (forall j | w.start <= j < w.end :: g.h[j].summary.epoch == w.epoch)
  }

  ghost predicate InvWith(g: Config, s: System, cuts: seq<CutRange>) {
    && GoodCuts(g.h, cuts)
    && PublishedOk(g, s.published, cuts)
    && ArchivedOk(g, |s.published|, s.remote, cuts)
    && HeadOk(g, s.published, s.manifest, s.cache)
    && QueueOk(g, |s.published|, s.syncing, s.queue, cuts)
    && StagedOk(g, |s.published|, s.syncing, s.local, s.remote, cuts)
    && (match s.writer
        case Some(w) => WriterOk(g, w, cuts) && w.epoch == EpochBefore(g.h, w.end)
        case None => s.queue == [] && s.syncing.Idle?)
  }

  ghost predicate Inv(g: Config, s: System) {
    exists cuts :: InvWith(g, s, cuts)
  }

  /** The codec is lawful for the history, and every manifest the history can lead to is encodable. */
  ghost predicate Sound(g: Config) {
    && Lawful(g.c, g.h) && WellFormedHistory(g.c, g.h)
    && (forall cuts, n: nat | GoodCuts(g.h, cuts) && n <= |cuts| :: EncodableAt(g, cuts, n))
  }

  ghost predicate EncodableAt(g: Config, cuts: seq<CutRange>, n: nat)
    requires GoodCuts(g.h, cuts) && n <= |cuts|
  {
    g.c.encodable(ManifestAt(g, cuts, n))
  }

  lemma InitialInv(g: Config)
    ensures Inv(g, INITIAL)
  {
    assert InvWith(g, INITIAL, []);
  }

  // --- Writing ---

  /** The invariant in the middle of a write, before the epochs of writer and history agree again. */
  ghost predicate MidWrite(g: Config, s: System, io: WriterIO, cuts: seq<CutRange>) {
    && GoodCuts(g.h, cuts)
    && PublishedOk(g, s.published, cuts)
    && ArchivedOk(g, |s.published|, s.remote, cuts)
    && HeadOk(g, s.published, s.manifest, s.cache)
    && QueueOk(g, |s.published|, s.syncing, io.queue, cuts)
    && StagedOk(g, |s.published|, s.syncing, io.local, s.remote, cuts)
    && WriterOk(g, io.w, cuts)
  }

  lemma {:induction false} ManifestAtPrefix(g: Config, cuts: seq<CutRange>, more: seq<CutRange>, n: nat)
    requires GoodCuts(g.h, cuts) && GoodCuts(g.h, cuts + more) && n <= |cuts|
    ensures ManifestAt(g, cuts + more, n) == ManifestAt(g, cuts, n)
  {
    if n == 0 {
    } else {
      ManifestAtPrefix(g, cuts, more, n - 1);
    }
  }

  /** The cuts after committing the open files. */
  ghost function Committed(w: Writer, cuts: seq<CutRange>): seq<CutRange> {
    if w.start == w.end then cuts else cuts + [CutRange(w.epoch, w.start, w.end)]
  }

  lemma ExtendGoodCuts(h: seq<Entry>, cuts: seq<CutRange>, cut: CutRange)
    requires GoodCuts(h, cuts) && GoodCut(h, cut) && cut.start == EndAt(cuts, |cuts|)
    ensures GoodCuts(h, cuts + [cut])
  {
    var cuts' := cuts + [cut];
    forall i | 0 <= i < |cuts'| ensures Follows(cuts', i) {
      assert i < |cuts| ==> Follows(cuts, i);
    }
  }

  lemma ExtendPublished(g: Config, published: seq<Manifest>, cuts: seq<CutRange>, more: seq<CutRange>)
    requires GoodCuts(g.h, cuts) && GoodCuts(g.h, cuts + more) && PublishedOk(g, published, cuts)
    ensures PublishedOk(g, published, cuts + more)
  {
    forall k | 0 <= k < |published| ensures published[k] == ManifestAt(g, cuts + more, k + 1) {
      ManifestAtPrefix(g, cuts, more, k + 1);
    }
  }

  /** Committing adds one good cut, whose update is what is queued. */
  lemma CommitAddsCut(g: Config, io: WriterIO, cuts: seq<CutRange>)
    requires GoodCuts(g.h, cuts) && WriterOk(g, io.w, cuts) && io.w.start < io.w.end
    ensures GoodCuts(g.h, Committed(io.w, cuts))
    ensures Cut(g.c, io).queue == io.queue + [UpdateOf(g, Committed(io.w, cuts), |cuts|)]
    ensures WriterOk(g, Reset(Cut(g.c, io)).w, Committed(io.w, cuts))
  {
    var cut := CutRange(io.w.epoch, io.w.start, io.w.end);
    ExtendGoodCuts(g.h, cuts, cut);
    ManifestAtPrefix(g, cuts, [cut], |cuts|);
  }

  lemma UpdatesKept(g: Config, cuts: seq<CutRange>, cut: CutRange, j: nat)
    requires GoodCuts(g.h, cuts) && GoodCuts(g.h, cuts + [cut]) && j < |cuts|
    ensures UpdateOf(g, cuts + [cut], j) == UpdateOf(g, cuts, j)
  {
    ManifestAtPrefix(g, cuts, [cut], j + 1);
  }

  lemma CommitKeepsQueue(g: Config, p: nat, syncing: Syncing, io: WriterIO, cuts: seq<CutRange>)
    requires GoodCuts(g.h, cuts) && WriterOk(g, io.w, cuts) && io.w.start < io.w.end
    requires QueueOk(g, p, syncing, io.queue, cuts)
    ensures GoodCuts(g.h, Committed(io.w, cuts))
    ensures QueueOk(g, p, syncing, Cut(g.c, io).queue, Committed(io.w, cuts))
    ensures WriterOk(g, Reset(Cut(g.c, io)).w, Committed(io.w, cuts))
  {
    var cut := CutRange(io.w.epoch, io.w.start, io.w.end);
    CommitAddsCut(g, io, cuts);
    forall j | 0 <= j < |cuts| ensures UpdateOf(g, cuts + [cut], j) == UpdateOf(g, cuts, j) {
      UpdatesKept(g, cuts, cut, j);
    }
  }

  lemma CommitKeepsStaged(
    g: Config, p: nat, syncing: Syncing, io: WriterIO, remote: map<Path, Bytes>, cuts: seq<CutRange>)
    requires GoodCuts(g.h, cuts) && WriterOk(g, io.w, cuts) && io.w.start < io.w.end
    requires p + InFlight(syncing) <= |cuts| && StagedOk(g, p, syncing, io.local, remote, cuts)
    requires GoodCuts(g.h, Committed(io.w, cuts))
    ensures StagedOk(g, p, syncing, Cut(g.c, io).local, remote, Committed(io.w, cuts))
  {
    var cuts' := Committed(io.w, cuts);
    forall j | 0 <= j < |cuts| ensures cuts[j] == cuts'[j] && cuts[j].start < io.w.start {
      StartsIncrease(g.h, cuts', j, |cuts|);
    }
  }

  lemma CommitKeepsInv(g: Config, s: System, io: WriterIO, cuts: seq<CutRange>)
    requires MidWrite(g, s, io, cuts)
    ensures MidWrite(g, s, Reset(Cut(g.c, io)), Committed(io.w, cuts))
  {
    if io.w.start < io.w.end {
      CommitKeepsQueue(g, |s.published|, s.syncing, io, cuts);
      CommitKeepsStaged(g, |s.published|, s.syncing, io, s.remote, cuts);
      ExtendPublished(g, s.published, cuts, [CutRange(io.w.epoch, io.w.start, io.w.end)]);
    }
  }

  lemma CutEpochBound(g: Config, cuts: seq<CutRange>, w: Writer, j: nat)
    requires WellFormedHistory(g.c, g.h) && GoodCuts(g.h, cuts) && WriterOk(g, w, cuts) && j < |cuts|
    ensures cuts[j].epoch <= w.epoch
  {
    if j < |cuts| - 1 { StartsIncrease(g.h, cuts, j, |cuts| - 1); }
    EpochsNeverDecrease(g.c, g.h, cuts[j].start, w.end - 1);
  }

  lemma RemoveDirKeepsStaged(
    g: Config, p: nat, syncing: Syncing, local: map<Path, Bytes>, remote: map<Path, Bytes>, cuts: seq<CutRange>, e: nat)
    requires GoodCuts(g.h, cuts) && p + InFlight(syncing) <= |cuts| && StagedOk(g, p, syncing, local, remote, cuts)
    requires forall j | 0 <= j < |cuts| :: cuts[j].epoch < e
    ensures StagedOk(g, p, syncing, RemoveEpochDir(local, e), remote, cuts)
  {}

  lemma CutEpochsBound(g: Config, cuts: seq<CutRange>, w: Writer)
    requires WellFormedHistory(g.c, g.h) && GoodCuts(g.h, cuts) && WriterOk(g, w, cuts)
    ensures forall j | 0 <= j < |cuts| :: cuts[j].epoch < w.epoch + 1
  {
    forall j | 0 <= j < |cuts| ensures cuts[j].epoch < w.epoch + 1 { CutEpochBound(g, cuts, w, j); }
  }

  /** With nothing pending, the writer can move to the next epoch and clear its directory. */
  lemma EnterEpochKeepsInv(g: Config, s: System, io: WriterIO, cuts: seq<CutRange>)
    requires WellFormedHistory(g.c, g.h) && MidWrite(g, s, io, cuts) && io.w.start == io.w.end
    ensures MidWrite(g, s, EnterNextEpoch(io), cuts)
  {
    CutEpochsBound(g, cuts, io.w);
    RemoveDirKeepsStaged(g, |s.published|, s.syncing, io.local, s.remote, cuts, io.w.epoch + 1);
  }

  lemma NextEpochKeepsInv(g: Config, s: System, io: WriterIO, cuts: seq<CutRange>)
    requires WellFormedHistory(g.c, g.h) && MidWrite(g, s, io, cuts)
    ensures MidWrite(g, s, ToNextEpoch(g.c, io), Committed(io.w, cuts))
  {
    CommitKeepsInv(g, s, io, cuts);
    EnterEpochKeepsInv(g, s, Reset(Cut(g.c, io)), Committed(io.w, cuts));
  }

  lemma AppendKeepsInv(g: Config, s: System, io: WriterIO, cuts: seq<CutRange>)
    requires MidWrite(g, s, io, cuts) && io.w.end < |g.h| && g.h[io.w.end].summary.epoch == io.w.epoch
    ensures MidWrite(g, s, Append(g.c, io, g.h[io.w.end]), cuts)
    ensures Append(g.c, io, g.h[io.w.end]).w.epoch == EpochBefore(g.h, io.w.end + 1)
  {}

  lemma AtEpochKeepsInv(g: Config, s: System, io: WriterIO, cuts: seq<CutRange>) returns (cuts': seq<CutRange>)
    requires WellFormedHistory(g.c, g.h) && MidWrite(g, s, io, cuts)
    requires io.w.epoch == EpochBefore(g.h, io.w.end) && io.w.end < |g.h|
    ensures var io' := AtEpoch(g.c, io, g.h[io.w.end]);
            MidWrite(g, s, io', cuts') && io'.w.end == io.w.end && io'.w.epoch == g.h[io.w.end].summary.epoch
  {
    assert WellFormedEntry(g.c, g.h, io.w.end);
    cuts' := cuts;
    if g.h[io.w.end].summary.epoch == io.w.epoch + 1 {
      NextEpochKeepsInv(g, s, io, cuts);
      cuts' := Committed(io.w, cuts);
    }
  }

  lemma MakeRoomKeepsInv(g: Config, s: System, io: WriterIO, e: Entry, elapsed: bool, cuts: seq<CutRange>)
    returns (cuts': seq<CutRange>)
    requires MidWrite(g, s, io, cuts)
    ensures var io' := MakeRoom(g.c, g.commitSize, io, e, elapsed);
            MidWrite(g, s, io', cuts') && io'.w.end == io.w.end && io'.w.epoch == io.w.epoch
  {
    cuts' := cuts;
    if io.w.offset + g.c.blobSize(e.contents) > g.commitSize || elapsed {
      CommitKeepsInv(g, s, io, cuts);
      cuts' := Committed(io.w, cuts);
    }
  }

  lemma WriteEnds(g: Config, s: System, io: WriterIO, cuts: seq<CutRange>)
    requires MidWrite(g, s, io, cuts) && io.w.epoch == EpochBefore(g.h, io.w.end)
    ensures InvWith(g, s.(writer := Some(io.w), local := io.local, queue := io.queue), cuts)
  {}

  /** A write in a reachable state succeeds and keeps the invariant. */
  lemma WriteKeepsInv(g: Config, s: System, elapsed: bool, cuts: seq<CutRange>)
    requires Sound(g) && InvWith(g, s, cuts) && s.writer.Some? && s.writer.value.end < |g.h|
    ensures Tail(g, s, elapsed).Ok?
    ensures var io := Tail(g, s, elapsed).value; Inv(g, s.(writer := Some(io.w), local := io.local, queue := io.queue))
  {
    var io := WriterIO(s.writer.value, s.local, s.queue);
    var e := g.h[io.w.end];
    assert WellFormedEntry(g.c, g.h, io.w.end);
    var cuts1 := AtEpochKeepsInv(g, s, io, cuts);
    var io1 := AtEpoch(g.c, io, e);
    var cuts2 := MakeRoomKeepsInv(g, s, io1, e, elapsed, cuts1);
    var io2 := MakeRoom(g.c, g.commitSize, io1, e, elapsed);
    AppendKeepsInv(g, s, io2, cuts2);
    var io3 := Append(g.c, io2, e);
    WriteEnds(g, s, io3, cuts2);
  }

  // --- Syncing ---

  lemma FetchKeepsInv(g: Config, s: System, cuts: seq<CutRange>)
    requires InvWith(g, s, cuts) && Enabled(g, s, Fetch)
    ensures InvWith(g, Apply(g, s, Fetch), cuts)
  {
    var s' := Apply(g, s, Fetch);
    var p := |s.published|;
    forall i | 0 <= i < |s'.queue| ensures s'.queue[i] == UpdateOf(g, cuts, p + 1 + i) {
      assert s'.queue[i] == s.queue[i + 1];
    }
    assert s.queue[0] == UpdateOf(g, cuts, p + 0);
  }

  /** The start of the update in flight belongs to no other cut. */
  lemma StartsDiffer(h: seq<Entry>, cuts: seq<CutRange>, p: nat)
    requires GoodCuts(h, cuts) && p < |cuts|
    ensures forall j | 0 <= j < |cuts| && j != p :: cuts[j].start != cuts[p].start
  {
    forall j | 0 <= j < |cuts| && j != p ensures cuts[j].start != cuts[p].start {
      if j < p { StartsIncrease(h, cuts, j, p); } else { StartsIncrease(h, cuts, p, j); }
    }
  }

  ghost function PathOf(cut: CutRange, kind: FileKind): Path {
    Path(cut.epoch, cut.start, kind)
  }

  /** Putting a file of cut `p` in the remote store leaves the files of earlier cuts alone. */
  lemma PutKeepsArchived(g: Config, remote: map<Path, Bytes>, cuts: seq<CutRange>, p: nat, kind: FileKind, b: Bytes)
    requires GoodCuts(g.h, cuts) && p < |cuts| && ArchivedOk(g, p, remote, cuts)
    ensures ArchivedOk(g, p, remote[PathOf(cuts[p], kind) := b], cuts)
  {
    StartsDiffer(g.h, cuts, p);
  }

  lemma UploadSummaryKeepsStaged(
    g: Config, u: CheckpointUpdates, local: map<Path, Bytes>, remote: map<Path, Bytes>, cuts: seq<CutRange>, p: nat)
    requires GoodCuts(g.h, cuts) && p < |cuts| && StagedOk(g, p, Fetched(u), local, remote, cuts)
    ensures var path := PathOf(cuts[p], SummaryKind);
      path in local && StagedOk(g, p, SummaryUploaded(u), local - {path}, remote[path := local[path]], cuts)
  {
    StartsDiffer(g.h, cuts, p);
  }

  lemma UploadContentKeepsStaged(
    g: Config, u: CheckpointUpdates, local: map<Path, Bytes>, remote: map<Path, Bytes>, cuts: seq<CutRange>, p: nat)
    requires GoodCuts(g.h, cuts) && p < |cuts| && StagedOk(g, p, SummaryUploaded(u), local, remote, cuts)
    ensures var path := PathOf(cuts[p], ContentKind);
      path in local && StagedOk(g, p, ContentUploaded(u), local - {path}, remote[path := local[path]], cuts)
  {
    StartsDiffer(g.h, cuts, p);
  }

  /** The file an upload step copies is the one of the oldest unpublished cut. */
  lemma UploadPath(g: Config, s: System, cuts: seq<CutRange>)
    requires InvWith(g, s, cuts) && !s.syncing.Idle?
    ensures |s.published| < |cuts|
    ensures s.syncing.update.summary.FilePath() == PathOf(cuts[|s.published|], SummaryKind)
    ensures s.syncing.update.content.FilePath() == PathOf(cuts[|s.published|], ContentKind)
  {}

  /** The invariant after an upload, from its parts. */
  lemma UploadEnds(
    g: Config, s: System, cuts: seq<CutRange>, local: map<Path, Bytes>, remote: map<Path, Bytes>, syncing: Syncing)
    requires InvWith(g, s, cuts) && !s.syncing.Idle? && !syncing.Idle? && syncing.update == s.syncing.update
    requires ArchivedOk(g, |s.published|, remote, cuts)
    requires StagedOk(g, |s.published|, syncing, local, remote, cuts)
    ensures InvWith(g, s.(local := local, remote := remote, syncing := syncing), cuts)
  {}

  /** A file of the oldest unpublished cut is not empty, so it is copied. */
  lemma UploadCopies(g: Config, s: System, cuts: seq<CutRange>, kind: FileKind, done: Syncing)
    requires Sound(g) && GoodCuts(g.h, cuts) && |s.published| < |cuts|
    requires if kind == SummaryKind then HoldsSummary(g, s.local, cuts[|s.published|]) else HoldsContent(g, s.local, cuts[|s.published|])
    ensures var p := PathOf(cuts[|s.published|], kind);
      Upload(s, p, done) == s.(local := s.local - {p}, remote := s.remote[p := s.local[p]], syncing := done)
  {
    var cut := cuts[|s.published|];
    assert SliceReadsBack(g.c, g.h, cut.start, cut.end);
  }

  lemma UploadSummaryKeepsInv(g: Config, s: System, cuts: seq<CutRange>)
    requires Sound(g) && InvWith(g, s, cuts) && s.syncing.Fetched?
    ensures InvWith(g, Apply(g, s, UploadSummary), cuts) && Apply(g, s, UploadSummary).writer == s.writer
  {
    var p, done := |s.published|, SummaryUploaded(s.syncing.update);
    UploadPath(g, s, cuts);
    UploadSummaryKeepsStaged(g, s.syncing.update, s.local, s.remote, cuts, p);
    var path := PathOf(cuts[p], SummaryKind);
    PutKeepsArchived(g, s.remote, cuts, p, SummaryKind, s.local[path]);
    UploadCopies(g, s, cuts, SummaryKind, done);
    UploadEnds(g, s, cuts, s.local - {path}, s.remote[path := s.local[path]], done);
  }

  lemma UploadContentKeepsInv(g: Config, s: System, cuts: seq<CutRange>)
    requires Sound(g) && InvWith(g, s, cuts) && s.syncing.SummaryUploaded?
    ensures InvWith(g, Apply(g, s, UploadContent), cuts) && Apply(g, s, UploadContent).writer == s.writer
  {
    var p, done := |s.published|, ContentUploaded(s.syncing.update);
    UploadPath(g, s, cuts);
    UploadContentKeepsStaged(g, s.syncing.update, s.local, s.remote, cuts, p);
    var path := PathOf(cuts[p], ContentKind);
    PutKeepsArchived(g, s.remote, cuts, p, ContentKind, s.local[path]);
    UploadCopies(g, s, cuts, ContentKind, done);
    UploadEnds(g, s, cuts, s.local - {path}, s.remote[path := s.local[path]], done);
  }

  lemma PublishKeepsQueue(
    g: Config, p: nat, u: CheckpointUpdates, queue: seq<CheckpointUpdates>, local: map<Path, Bytes>, remote: map<Path, Bytes>, cuts: seq<CutRange>)
    requires GoodCuts(g.h, cuts) && QueueOk(g, p, ContentUploaded(u), queue, cuts) && StagedOk(g, p, ContentUploaded(u), local, remote, cuts)
    ensures QueueOk(g, p + 1, Idle, queue, cuts) && StagedOk(g, p + 1, Idle, local, remote, cuts)
  {}

  lemma PublishKeepsArchived(
    g: Config, published: seq<Manifest>, u: CheckpointUpdates, local: map<Path, Bytes>, remote: map<Path, Bytes>, cuts: seq<CutRange>)
    requires GoodCuts(g.h, cuts) && PublishedOk(g, published, cuts) && |published| < |cuts| && u == UpdateOf(g, cuts, |published|)
    requires ArchivedOk(g, |published|, remote, cuts) && StagedOk(g, |published|, ContentUploaded(u), local, remote, cuts)
    ensures PublishedOk(g, published + [u.manifest], cuts) && ArchivedOk(g, |published| + 1, remote, cuts)
  {}

  lemma PublishKeepsInv(g: Config, s: System, cuts: seq<CutRange>)
    requires InvWith(g, s, cuts) && s.syncing.ContentUploaded?
    ensures InvWith(g, Apply(g, s, PublishManifest), cuts)
  {
    var p, u := |s.published|, s.syncing.update;
    PublishKeepsQueue(g, p, u, s.queue, s.local, s.remote, cuts);
    PublishKeepsArchived(g, s.published, u, s.local, s.remote, cuts);
    var s' := Apply(g, s, PublishManifest);
    assert HeadOk(g, s'.published, s'.manifest, s'.cache);
  }

  // --- Crash, restart, refresh ---

  lemma {:induction false} TruncateManifest(g: Config, cuts: seq<CutRange>, n: nat, k: nat)
    requires GoodCuts(g.h, cuts) && k <= n <= |cuts|
    ensures GoodCuts(g.h, cuts[..n]) && ManifestAt(g, cuts[..n], k) == ManifestAt(g, cuts, k)
  {
    forall i | 0 <= i < n ensures Follows(cuts[..n], i) { assert Follows(cuts, i); }
    assert cuts[..n] + cuts[n..] == cuts;
    ManifestAtPrefix(g, cuts[..n], cuts[n..], k);
  }

  /** Losing the writer, the channel and the local files loses only unpublished cuts. */
  lemma AbortKeepsInv(g: Config, s: System, leftover: map<Path, Bytes>, cuts: seq<CutRange>)
    requires InvWith(g, s, cuts)
    ensures InvWith(g, Abort(s).(local := leftover), cuts[..|s.published|])
  {
    var p := |s.published|;
    TruncateManifest(g, cuts, p, p);
    forall k | 0 <= k < p ensures s.published[k] == ManifestAt(g, cuts[..p], k + 1) {
      TruncateManifest(g, cuts, p, k + 1);
    }
  }

  lemma ManifestAtNextAndEpoch(g: Config, cuts: seq<CutRange>, n: nat)
    requires GoodCuts(g.h, cuts) && n <= |cuts|
    ensures ManifestAt(g, cuts, n).next == EndAt(cuts, n)
    ensures EndAt(cuts, n) <= |g.h| && ManifestAt(g, cuts, n).epoch == EpochBefore(g.h, EndAt(cuts, n))
  {}

  /** A restart is possible exactly when nothing was uploaded yet or a manifest was published. */
  ghost predicate CanRestart(s: System) {
    s.remote == map[] || s.published != []
  }

  lemma RecoveredIsLastPublished(g: Config, s: System, cuts: seq<CutRange>)
    requires Sound(g) && InvWith(g, s, cuts)
    ensures RecoveredManifest(g.c, s) ==
      if CanRestart(s) then Ok(ManifestAt(g, cuts, |s.published|)) else Panicked
  {
    if s.published != [] {
      assert HoldsContent(g, s.remote, cuts[0]);
      assert EncodableAt(g, cuts, |s.published|);
    }
  }

  lemma StartKeepsInv(g: Config, s: System, cuts: seq<CutRange>)
    requires Sound(g) && InvWith(g, s, cuts) && s.writer.None?
    ensures InvWith(g, Apply(g, s, Start), cuts)
  {
    RecoveredIsLastPublished(g, s, cuts);
    ManifestAtNextAndEpoch(g, cuts, |cuts|);
  }

  lemma RefreshKeepsInv(g: Config, s: System, cuts: seq<CutRange>)
    requires Sound(g) && InvWith(g, s, cuts)
    ensures InvWith(g, Apply(g, s, Refresh), cuts)
  {
    if s.published != [] {
      assert s.published[|s.published| - 1] in s.published;
      assert EncodableAt(g, cuts, |s.published|);
    }
  }

  lemma StepKeepsInv(g: Config, s: System, step: Step)
    requires Sound(g) && Inv(g, s) && Enabled(g, s, step)
    ensures Inv(g, Apply(g, s, step))
  {
    var cuts :| InvWith(g, s, cuts);
    match step
    case WriteNext(elapsed) => WriteKeepsInv(g, s, elapsed, cuts);
    case Fetch => FetchKeepsInv(g, s, cuts);
    case UploadSummary => UploadSummaryKeepsInv(g, s, cuts);
    case UploadContent => UploadContentKeepsInv(g, s, cuts);
    case PublishManifest => PublishKeepsInv(g, s, cuts);
    case Crash(leftover) => AbortKeepsInv(g, s, leftover, cuts);
    case Start => StartKeepsInv(g, s, cuts);
    case Refresh => RefreshKeepsInv(g, s, cuts);
  }

  lemma {:induction false} RunKeepsInv(g: Config, s: System, steps: seq<Step>)
    requires Sound(g) && Inv(g, s) && Run(g, s, steps).Some?
    ensures Inv(g, Run(g, s, steps).value)
    decreases steps
  {
    if steps == [] {
    } else {
      StepKeepsInv(g, s, steps[0]);
      RunKeepsInv(g, Apply(g, s, steps[0]), steps[1..]);
    }
  }
}
