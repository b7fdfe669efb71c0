/**
 * The archive as a transition system: a writer tailing a fixed history, a syncing task uploading
 * summary, content and manifest of each cut in order, crashes at any point, restarts from the
 * remote manifest, and a reader refreshing its cached manifest.
 */
module ArchiveProtocol {
  import opened Prelude
  import opened ArchiveTypes
  import opened ArchiveWriter

  const CHANNEL_CAPACITY: nat := 100

  /** How far the syncing task is with the update it has taken from the channel. */
  datatype Syncing =
    | Idle
    | Fetched(update: CheckpointUpdates)
    | SummaryUploaded(update: CheckpointUpdates)
    | ContentUploaded(update: CheckpointUpdates)

  /** `published` records every manifest ever put in the remote store, in order. */
  datatype System = System(
    writer: Option<Writer>,
    local: map<Path, Bytes>,
    queue: seq<CheckpointUpdates>,
    syncing: Syncing,
    remote: map<Path, Bytes>,
    manifest: Option<Bytes>,
    cache: Manifest,
    published: seq<Manifest>)

  datatype Step =
    | WriteNext(elapsed: bool)
    | Fetch
    | UploadSummary
    | UploadContent
    | PublishManifest
    | Crash(leftover: map<Path, Bytes>)
    | Start
    | Refresh

  /** What is fixed during a run: the codec, the history being archived and `commit_file_size`. */
  datatype Config = Config(c: Codec, h: seq<Entry>, commitSize: nat)

  const INITIAL: System := System(None, map[], [], Idle, map[], None, NewManifest(0, 0), [])

  /** A panic anywhere aborts the process, and so does giving up on an error; what it had written locally stays on disk. */
  function Abort(s: System): System {
    s.(writer := None, queue := [], syncing := Idle)
  }

  /** `copy_file` does not copy an empty file; the local copy is removed in either case. */
  function Upload(s: System, p: Path, done: Syncing): System {
    if p !in s.local then Abort(s)
    else if s.local[p] == [] then s.(local := s.local - {p}, syncing := done)
    else s.(remote := s.remote[p := s.local[p]], local := s.local - {p}, syncing := done)
  }

  /** The manifest a starting writer resumes from; a panic when files exist but no readable manifest does. */
  function RecoveredManifest(c: Codec, s: System): Outcome<Manifest> {
    if s.remote == map[] then Ok(NewManifest(0, 0))
    else if s.manifest.None? then Panicked
    else match c.decodeManifest(s.manifest.value)
      case Some(m) => Ok(m)
      case None => Panicked
  }

  /** The write of the next checkpoint of the history. */
  function Tail(g: Config, s: System, elapsed: bool): Outcome<WriterIO>
    requires s.writer.Some? && s.writer.value.end < |g.h|
  {
    WriteAsBlob(g.c, g.commitSize, WriterIO(s.writer.value, s.local, s.queue), g.h[s.writer.value.end], elapsed)
  }

  /** Whether a step can be taken. A write that would overfill the channel waits. */
  predicate Enabled(g: Config, s: System, step: Step) {
    match step
    case WriteNext(elapsed) =>
      && s.writer.Some? && s.writer.value.end < |g.h|
      && (Tail(g, s, elapsed).Ok? ==> |Tail(g, s, elapsed).value.queue| <= CHANNEL_CAPACITY)
    case Fetch => s.syncing.Idle? && s.queue != []
    case UploadSummary => s.syncing.Fetched?
    case UploadContent => s.syncing.SummaryUploaded?
    case PublishManifest => s.syncing.ContentUploaded?
    case Crash(_) => true
    case Start => s.writer.None?
    case Refresh => true
  }

  function Apply(g: Config, s: System, step: Step): System
    requires Enabled(g, s, step)
  {
    match step
    case WriteNext(elapsed) =>
      (match Tail(g, s, elapsed)
       case Ok(io) => s.(writer := Some(io.w), local := io.local, queue := io.queue)
       case _ => Abort(s))
    case Fetch => s.(syncing := Fetched(s.queue[0]), queue := s.queue[1..])
    case UploadSummary =>
      Upload(s, s.syncing.update.summary.FilePath(), SummaryUploaded(s.syncing.update))
    case UploadContent =>
      Upload(s, s.syncing.update.content.FilePath(), ContentUploaded(s.syncing.update))
    case PublishManifest =>
      var m := s.syncing.update.manifest;
      s.(manifest := Some(g.c.encodeManifest(m)), published := s.published + [m], syncing := Idle)
    case Crash(leftover) => Abort(s).(local := leftover)
    case Start =>
      (match RecoveredManifest(g.c, s)
       case Ok(m) => Abort(s).(writer := Some(NewWriter(m)), local := RemoveEpochDir(s.local, m.epoch))
       case _ => Abort(s))
    case Refresh =>
      if s.manifest.None? then s
      else (
        match g.c.decodeManifest(s.manifest.value)
        case Some(m) => s.(cache := m)
        case None => s)
  }

  /** The state reached from `s` by `steps`, or None if one of them is not enabled when its turn comes. */
  function Run(g: Config, s: System, steps: seq<Step>): Option<System>
    decreases steps
  {
    if steps == [] then Some(s)
    else if Enabled(g, s, steps[0]) then Run(g, Apply(g, s, steps[0]), steps[1..])
    else None
  }
}
