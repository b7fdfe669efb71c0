/** How long a content file can get, in bytes, against `commit_file_size`. */
module ArchiveLengths {
  import opened Prelude
  import opened ArchiveTypes
  import opened ArchiveWriter
  import opened ArchiveProtocol
  import opened ArchiveInvariant
  import opened ArchiveTheorems
  import opened ArchiveSizes
  import opened BlobFormat
  import opened ArchiveFormat
  import opened ArchiveRestore

  /** What the tracked offset leaves out of the content file: the header, less the magic once it is counted. */
  function Untracked(reopened: bool): nat {
    if reopened then HEADER_BYTES - MAGIC_BYTES else HEADER_BYTES
  }

  lemma {:induction false} RawLength(w: Wire, z: FileCompression, es: seq<Entry>)
    requires AddressableEntries(w, es)
    ensures |RawContents(w, z, es)| == HEADER_BYTES + BlobBytes(MakeCodec(w, z), es)
  {
    if es == [] {
    } else {
      var front, last := es[..|es| - 1], es[|es| - 1];
      RawLength(w, z, front);
      assert AllContents(es)[..|es| - 1] == AllContents(front);
      assert AllContents(es)[|es| - 1] == last.contents;
      WriteHasSize(w.contents.encode(last.contents));
    }
  }

  /**
   * Every published content file is, before compression, as long as the offset at which its pair was committed and
   * six bytes more, or two more if the pair was a reopened one. With two checkpoints or more it exceeds
   * `commit_file_size` by no more than that.
   */
  lemma PublishedLengths(
    w: Wire, z: FileCompression, h: seq<Entry>, commitSize: nat, s: System, m: Manifest, f: FileMetadata)
    returns (open: System)
    requires Sound(ByteConfig(w, z, h, commitSize)) && AddressableEntries(w, h)
    requires Reachable(ByteConfig(w, z, h, commitSize), s) && m in s.published && f in m.files
    ensures f.start < f.end <= |h| && OpenIn(ByteConfig(w, z, h, commitSize), open, f)
    ensures var o := open.writer.value; |RawContents(w, z, h[f.start..f.end])| == o.offset + Untracked(o.reopened)
    ensures f.end - f.start >= 2 ==>
      |RawContents(w, z, h[f.start..f.end])| <= commitSize + Untracked(open.writer.value.reopened)
  {
    open := PublishedFilesFit(ByteConfig(w, z, h, commitSize), s, m, f);
    RawLength(w, z, h[f.start..f.end]);
  }

  // --- The bound is reached ---

  /** The limit is what the first two checkpoints take, both of the first epoch. */
  ghost predicate TwoFill(g: Config) {
    && Sound(g) && |g.h| >= 3 && g.h[1].summary.epoch == 0
    && g.commitSize == g.c.blobSize(g.h[0].contents) + g.c.blobSize(g.h[1].contents)
  }

  /** Two writes that fit exactly. */
  lemma TwoWrites(g: Config) returns (s: System)
    requires TwoFill(g)
    ensures Reachable(g, s)
    ensures s == INITIAL.(writer := Some(Writer(0, 0, 2, g.h[0..2], g.commitSize, NewManifest(0, 0), false)), local := s.local)
  {
    assert WellFormedEntry(g.c, g.h, 0) && WellFormedEntry(g.c, g.h, 1);
    assert Run(g, INITIAL, []) == Some(INITIAL);
    s := ReachableStep(g, INITIAL, Start);
    s := ReachableStep(g, s, WriteNext(false));
    assert [] + [g.h[0]] == g.h[0..1];
    assert s.writer == Some(Writer(0, 0, 1, g.h[0..1], g.c.blobSize(g.h[0].contents), NewManifest(0, 0), false));
    s := ReachableStep(g, s, WriteNext(false));
    assert g.h[0..1] + [g.h[1]] == g.h[0..2];
  }

  /** What the cut of those two checkpoints queues. */
  ghost function FirstUpdate(g: Config): CheckpointUpdates
    requires TwoFill(g)
  {
    var w := Writer(0, 0, 2, g.h[0..2], g.commitSize, NewManifest(0, 0), false);
    var content, summary := ContentMetadata(g.c, w), SummaryMetadata(g.c, w);
    CheckpointUpdates(content, summary, NewManifest(0, 0).Update(0, 2, content, summary))
  }

  lemma CutTwo(g: Config) returns (s: System)
    requires TwoFill(g)
    ensures Reachable(g, s) && s.queue == [FirstUpdate(g)] && s.syncing.Idle?
    ensures var u := FirstUpdate(g);
      && u.content.FilePath() in s.local && s.local[u.content.FilePath()] == g.c.contentFile(g.h[0..2]) != []
      && u.summary.FilePath() in s.local && s.local[u.summary.FilePath()] == g.c.summaryFile(g.h[0..2]) != []
  {
    assert WellFormedEntry(g.c, g.h, 2);
    assert SliceReadsBack(g.c, g.h, 0, 2);
    s := TwoWrites(g);
    s := ReachableStep(g, s, WriteNext(true));
  }

  /** A run that publishes the pair of the first two checkpoints. */
  lemma PublishTwo(g: Config) returns (s: System)
    requires TwoFill(g)
    ensures Reachable(g, s) && FirstUpdate(g).manifest in s.published
    ensures var p := FirstUpdate(g).content.FilePath(); p in s.remote && s.remote[p] == g.c.contentFile(g.h[0..2])
  {
    s := CutTwo(g);
    s := ReachableStep(g, s, Fetch);
    s := ReachableStep(g, s, UploadSummary);
    s := ReachableStep(g, s, UploadContent);
    s := ReachableStep(g, s, PublishManifest);
    assert s.published[|s.published| - 1] == FirstUpdate(g).manifest;
  }

  /** Without compression, that run puts a file in the remote store that is six bytes longer than the limit. */
  lemma LongerThanLimit(w: Wire, h: seq<Entry>, commitSize: nat) returns (s: System, m: Manifest, f: FileMetadata)
    requires TwoFill(ByteConfig(w, NoCompression, h, commitSize)) && AddressableEntries(w, h)
    ensures Reachable(ByteConfig(w, NoCompression, h, commitSize), s) && m in s.published && f in m.files
    ensures f.end - f.start == 2 && f.FilePath() in s.remote && |s.remote[f.FilePath()]| == commitSize + 6
  {
    var g := ByteConfig(w, NoCompression, h, commitSize);
    s := PublishTwo(g);
    m, f := FirstUpdate(g).manifest, FirstUpdate(g).content;
    assert m.files[0] == f;
    RawLength(w, NoCompression, h[0..2]);
    assert h[0..2][..1] == h[0..1] && h[0..1][..0] == [];
    assert BlobBytes(g.c, h[0..1]) == g.c.blobSize(h[0].contents);
  }
}
