/**
 * CheckpointWriter: appends checkpoints to a paired content and summary file, cuts the pair
 * on an epoch change, a size limit or a timeout, and records it in the manifest.
 *
 * The functions give the meaning of each operation on values; the class of CheckpointWriting keeps the
 * byte buffers and is proved against them.
 */
module ArchiveWriter {
  import opened Prelude
  import opened ArchiveTypes

  const MAGIC_BYTES: nat := 4

  /**
   * `pending` are the checkpoints in the open pair of files, numbered `start..end`. `reopened` records that the pair
   * is not the one opened by the start.
   */
  datatype Writer = Writer(
    epoch: nat, start: nat, end: nat, pending: seq<Entry>, offset: nat, manifest: Manifest, reopened: bool)

  /** The writer with what it can touch: finished local files and the channel to the syncing task. */
  datatype WriterIO = WriterIO(w: Writer, local: map<Path, Bytes>, queue: seq<CheckpointUpdates>)

  function NewWriter(m: Manifest): Writer {
    Writer(m.epoch, m.next, m.next, [], 0, m, false)
  }

  function ContentMetadata(c: Codec, w: Writer): FileMetadata {
    FileMetadata(ContentKind, w.epoch, w.start, w.end, c.sha3(c.contentFile(w.pending)))
  }

  function SummaryMetadata(c: Codec, w: Writer): FileMetadata {
    FileMetadata(SummaryKind, w.epoch, w.start, w.end, c.sha3(c.summaryFile(w.pending)))
  }

  function Cut(c: Codec, io: WriterIO): WriterIO {
    if io.w.start == io.w.end then io else
      var cm, sm := ContentMetadata(c, io.w), SummaryMetadata(c, io.w);
      var m := io.w.manifest.Update(io.w.epoch, io.w.end, cm, sm);
      WriterIO(
        io.w.(manifest := m),
        io.local[cm.FilePath() := c.contentFile(io.w.pending)][sm.FilePath() := c.summaryFile(io.w.pending)],
        io.queue + [CheckpointUpdates(cm, sm, m)])
  }

  function Reset(io: WriterIO): WriterIO {
    io.(w := io.w.(start := io.w.end, pending := [], offset := MAGIC_BYTES, reopened := true))
  }

  /** Local files outside the directory of `epoch`. */
  function RemoveEpochDir(local: map<Path, Bytes>, epoch: nat): map<Path, Bytes> {
    map p | p in local && p.epoch != epoch :: local[p]
  }

  function EnterNextEpoch(io: WriterIO): WriterIO {
    var epoch := io.w.epoch + 1;
    WriterIO(io.w.(epoch := epoch), RemoveEpochDir(io.local, epoch), io.queue)
  }

  function ToNextEpoch(c: Codec, io: WriterIO): WriterIO {
    EnterNextEpoch(Reset(Cut(c, io)))
  }

  function Append(c: Codec, io: WriterIO, e: Entry): WriterIO {
    io.(w := io.w.(
      offset := io.w.offset + c.blobSize(e.contents),
      pending := io.w.pending + [e],
      end := io.w.end + 1))
  }

  /** The writer moved to the checkpoint's epoch, if that is the next one. */
  function AtEpoch(c: Codec, io: WriterIO, e: Entry): WriterIO {
    if e.summary.epoch == io.w.epoch + 1 then ToNextEpoch(c, io) else io
  }

  /** New files are opened when the checkpoint does not fit or the open pair is too old. */
  function MakeRoom(c: Codec, commitSize: nat, io: WriterIO, e: Entry, elapsed: bool): WriterIO {
    if io.w.offset + c.blobSize(e.contents) > commitSize || elapsed then Reset(Cut(c, io)) else io
  }

  function WriteAsBlob(c: Codec, commitSize: nat, io: WriterIO, e: Entry, elapsed: bool): Outcome<WriterIO> {
    if e.summary.seqNum != io.w.end then Panicked
    else if io.w.epoch + 1 > U64_MAX then Err
    else
      var io1 := AtEpoch(c, io, e);
      if e.summary.epoch != io1.w.epoch then Panicked
      else if e.summary.contentDigest != c.contentsDigest(e.contents) then Panicked
      else if io1.w.end + 1 > U64_MAX then Err
      else Ok(Append(c, MakeRoom(c, commitSize, io1, e, elapsed), e))
  }

  /**
   * A checkpoint is taken exactly when it is the next one, of this epoch or the one after, with the contents its
   * summary names, and neither counter is at the end of its range. A counter at its end is an error, and anything
   * else that is wrong a panic.
   */
  lemma WriteTakesExactly(c: Codec, commitSize: nat, io: WriterIO, e: Entry, elapsed: bool)
    ensures WriteAsBlob(c, commitSize, io, e, elapsed).Ok? <==>
      && e.summary.seqNum == io.w.end < U64_MAX && io.w.epoch < U64_MAX
      && (e.summary.epoch == io.w.epoch || e.summary.epoch == io.w.epoch + 1)
      && e.summary.contentDigest == c.contentsDigest(e.contents)
    ensures WriteAsBlob(c, commitSize, io, e, elapsed).Err? <==>
      && e.summary.seqNum == io.w.end
      && (io.w.epoch >= U64_MAX || (
            && io.w.end >= U64_MAX
            && (e.summary.epoch == io.w.epoch || e.summary.epoch == io.w.epoch + 1)
            && e.summary.contentDigest == c.contentsDigest(e.contents)))
  {}

  /** When a write closes the open pair: for a new epoch, for lack of room, or after the timeout. */
  predicate Due(c: Codec, commitSize: nat, w: Writer, e: Entry, elapsed: bool) {
    e.summary.epoch == w.epoch + 1 || w.offset + c.blobSize(e.contents) > commitSize || elapsed
  }

  /** A write queues a pair exactly when one is open and due, and leaves the checkpoint alone in the open pair exactly then. */
  lemma WriteCutsExactly(c: Codec, commitSize: nat, io: WriterIO, e: Entry, elapsed: bool)
    requires WriteAsBlob(c, commitSize, io, e, elapsed).Ok? && io.w.start <= io.w.end
    ensures var io' := WriteAsBlob(c, commitSize, io, e, elapsed).value; var due := Due(c, commitSize, io.w, e, elapsed);
      && (io'.queue != io.queue <==> io.w.start < io.w.end && due)
      && io'.w.pending == (if due then [e] else io.w.pending + [e])
      && io'.w.start == (if due then io.w.end else io.w.start)
      && (io'.w.reopened <==> io.w.reopened || due)
  {}

  /** What a write adds: the checkpoint itself to the open pair, and a finished pair for each cut, oldest first. */
  lemma WriteConserves(c: Codec, commitSize: nat, io: WriterIO, e: Entry, elapsed: bool)
    requires WriteAsBlob(c, commitSize, io, e, elapsed).Ok?
    ensures var io' := WriteAsBlob(c, commitSize, io, e, elapsed).value;
      && io'.w.end == io.w.end + 1 && io'.w.epoch == e.summary.epoch
      && io'.w.pending != [] && io'.w.pending[|io'.w.pending| - 1] == e
      && io.queue <= io'.queue <= io.queue + [CheckpointUpdates(ContentMetadata(c, io.w), SummaryMetadata(c, io.w),
           io.w.manifest.Update(io.w.epoch, io.w.end, ContentMetadata(c, io.w), SummaryMetadata(c, io.w)))]
      && (io'.queue == io.queue && io.w.start < io.w.end ==> io'.w.pending == io.w.pending + [e] && io'.w.start == io.w.start)
  {
    var io1 := AtEpoch(c, io, e);
    assert io1 != io ==> io1.w.start == io1.w.end;
  }
}
