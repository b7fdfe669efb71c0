/** The checkpoint writer as it runs: byte buffers updated in place, proved against the functions of ArchiveWriter. */
module CheckpointWriting {
  import opened Prelude
  import opened ArchiveTypes
  import opened ArchiveWriter
  import opened BlobFormat
  import opened ArchiveFormat

  lemma AppendBlob<T>(s: Serde<T>, xs: seq<T>, x: T)
    ensures WriteBlobs(s, xs + [x]) == WriteBlobs(s, xs) + WriteBlob(s.encode(x))
  {
    assert (xs + [x])[..|xs|] == xs;
  }

  /** What writing one more checkpoint does to the two open files. */
  lemma AppendRaw(w: Wire, z: FileCompression, es: seq<Entry>, e: Entry)
    ensures RawContents(w, z, es + [e]) == RawContents(w, z, es) + WriteBlob(w.contents.encode(e.contents))
    ensures RawSummaries(w, z, es + [e]) == RawSummaries(w, z, es) + WriteBlob(w.summary.encode(e.summary))
  {
    AppendBlob(w.contents, AllContents(es), e.contents);
    AppendBlob(w.summary, Summaries(es), e.summary);
    assert AllContents(es + [e]) == AllContents(es) + [e.contents];
    assert Summaries(es + [e]) == Summaries(es) + [e.summary];
  }

  class CheckpointWriter {
    const w: Wire
    const z: FileCompression
    const commitFileSize: nat
    var epochNum: nat
    var start: nat
    var end: nat
    var wbuf: Bytes
    var summaryWbuf: Bytes
    var bufOffset: nat
    var manifest: Manifest
    var sender: seq<CheckpointUpdates>
    var local: map<Path, Bytes>
    ghost var pending: seq<Entry>
    ghost var reopened: bool

    ghost function Io(): WriterIO
      reads this
    {
      WriterIO(Writer(epochNum, start, end, pending, bufOffset, manifest, reopened), local, sender)
    }

    /**
     * The buffers hold exactly the pending checkpoints. The tracked offset is short of the content file by the
     * whole header in the file opened by the start, and by the two format bytes in every reopened one.
     */
    ghost predicate Valid()
      reads this
    {
      && start <= end && |pending| == end - start
      && wbuf == RawContents(w, z, pending)
      && summaryWbuf == RawSummaries(w, z, pending)
      && |wbuf| == bufOffset + HEADER_BYTES - (if reopened then MAGIC_BYTES else 0)
    }

    constructor (w: Wire, z: FileCompression, commitFileSize: nat, m: Manifest, disk: map<Path, Bytes>)
      ensures Valid() && this.w == w && this.z == z && this.commitFileSize == commitFileSize
      ensures Io() == WriterIO(NewWriter(m), RemoveEpochDir(disk, m.epoch), [])
    {
      this.w, this.z, this.commitFileSize := w, z, commitFileSize;
      epochNum, start, end, bufOffset, manifest := m.epoch, m.next, m.next, 0, m;
      wbuf := Header(CHECKPOINT_FILE_MAGIC, z);
      summaryWbuf := Header(SUMMARY_FILE_MAGIC, z);
      sender, local, pending, reopened := [], RemoveEpochDir(disk, m.epoch), [], false;
    }

    /** Flushes, compresses and fingerprints one of the two files. */
    method Finalize(kind: FileKind) returns (f: FileMetadata)
      requires Valid()
      modifies `local
      ensures Valid()
      ensures f == if kind.ContentKind? then ContentMetadata(MakeCodec(w, z), Io().w) else SummaryMetadata(MakeCodec(w, z), Io().w)
      ensures local == old(local)[f.FilePath() :=
        if kind.ContentKind? then MakeCodec(w, z).contentFile(pending) else MakeCodec(w, z).summaryFile(pending)]
    {
      var file := Finish(w, z, if kind.ContentKind? then wbuf else summaryWbuf);
      f := FileMetadata(kind, epochNum, start, end, w.sha3(file));
      local := local[f.FilePath() := file];
    }

    method CutFiles()
      requires Valid()
      modifies `manifest, `sender, `local
      ensures Valid() && Io() == Cut(MakeCodec(w, z), old(Io()))
    {
      if start != end {
        var content := Finalize(ContentKind);
        var summary := Finalize(SummaryKind);
        manifest := manifest.Update(epochNum, end, content, summary);
        sender := sender + [CheckpointUpdates(content, summary, manifest)];
      }
    }

    method ResetFiles()
      requires Valid()
      modifies `start, `wbuf, `summaryWbuf, `bufOffset, `pending, `reopened
      ensures Valid() && Io() == Reset(old(Io()))
    {
      start := end;
      wbuf := Header(CHECKPOINT_FILE_MAGIC, z);
      bufOffset := MAGIC_BYTES;
      summaryWbuf := Header(SUMMARY_FILE_MAGIC, z);
      pending, reopened := [], true;
    }

    /** Appends both blobs. The offset advances by what was written, which is the size announced for the blob. */
    method AppendBlobs(e: Entry)
      requires Valid() && Addressable(w.contents.encode(e.contents))
      modifies `wbuf, `summaryWbuf, `bufOffset, `end, `pending
      ensures Valid() && Io() == Append(MakeCodec(w, z), old(Io()), e)
    {
      var blob := WriteBlob(w.contents.encode(e.contents));
      WriteHasSize(w.contents.encode(e.contents));
      AppendRaw(w, z, pending, e);
      wbuf := wbuf + blob;
      bufOffset := bufOffset + |blob|;
      summaryWbuf := summaryWbuf + WriteBlob(w.summary.encode(e.summary));
      end := end + 1;
      pending := pending + [e];
    }

    method MoveToEpoch(e: Entry)
      requires Valid()
      modifies this
      ensures Valid() && Io() == AtEpoch(MakeCodec(w, z), old(Io()), e)
    {
      if e.summary.epoch == epochNum + 1 {
        CutFiles();
        epochNum := epochNum + 1;
        local := RemoveEpochDir(local, epochNum);
        ResetFiles();
      }
    }

    method CutIfFull(e: Entry, elapsed: bool)
      requires Valid()
      modifies this
      ensures Valid() && Io() == MakeRoom(MakeCodec(w, z), commitFileSize, old(Io()), e, elapsed)
    {
      if bufOffset + Size(w.contents.encode(e.contents)) > commitFileSize || elapsed {
        CutFiles();
        ResetFiles();
      }
    }

    method Write(e: Entry, elapsed: bool) returns (r: Outcome<()>)
      requires Valid() && Addressable(w.contents.encode(e.contents))
      modifies this
      ensures Valid()
      ensures match WriteAsBlob(MakeCodec(w, z), commitFileSize, old(Io()), e, elapsed)
        case Ok(io) => r == Ok(()) && Io() == io
        case Err => r == Err
        case Panicked => r == Panicked
    {
      if e.summary.seqNum != end { return Panicked; }
      if epochNum + 1 > U64_MAX { return Err; }
      MoveToEpoch(e);
      if e.summary.epoch != epochNum { return Panicked; }
      if e.summary.contentDigest != w.contentsDigest(e.contents) { return Panicked; }
      CutIfFull(e, elapsed);
      AppendBlobs(e);
      r := if end > U64_MAX then Err else Ok(());
    }
  }
}
