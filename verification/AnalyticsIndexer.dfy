/**
 * The analytics indexer: rows extracted from checkpoints are buffered, cut into files named by their
 * checkpoint range, uploaded in order, and the resume point after a restart is read off the file names.
 */
module AnalyticsIndexer {
  import opened Prelude

  type Row = Bytes

  /** What the indexer sees of a checkpoint: its epoch and the rows its handler extracts. */
  datatype Checkpoint = Checkpoint(epoch: nat, rows: seq<Row>)

  datatype FileFormat = Csv | Parquet

  /** A file is named by its epoch directory and its checkpoint range. */
  datatype FileName = FileName(epoch: nat, start: nat, end: nat)

  /** The processor and its file writer. */
  datatype Processor = Processor(epoch: nat, start: nat, end: nat, buffer: seq<Row>)

  /** The processor with what it can touch: finished local files and the channel to the upload task. */
  datatype ProcessorIO = ProcessorIO(p: Processor, local: map<FileName, seq<Row>>, queue: seq<FileName>)

  function NewProcessor(resume: nat): Processor {
    Processor(0, resume, resume, [])
  }

  /** A Parquet writer with nothing buffered writes no file; a CSV writer always finishes its file. */
  predicate Flushes(format: FileFormat, buffer: seq<Row>) {
    format.Csv? || buffer != []
  }

  function Cut(format: FileFormat, io: ProcessorIO): ProcessorIO {
    if io.p.start == io.p.end || !Flushes(format, io.p.buffer) then io
    else
      var f := FileName(io.p.epoch, io.p.start, io.p.end);
      ProcessorIO(io.p, io.local[f := io.p.buffer], io.queue + [f])
  }

  function Reset(io: ProcessorIO): ProcessorIO {
    io.(p := io.p.(start := io.p.end, buffer := []))
  }

  function RemoveEpochDir(local: map<FileName, seq<Row>>, epoch: nat): map<FileName, seq<Row>> {
    map f | f in local && f.epoch != epoch :: local[f]
  }

  /** Any later epoch, not just the next one, closes the open file. */
  function AtEpoch(format: FileFormat, io: ProcessorIO, epoch: nat): ProcessorIO {
    if epoch <= io.p.epoch then io
    else
      var cut := Cut(format, io);
      Reset(ProcessorIO(cut.p.(epoch := epoch), RemoveEpochDir(cut.local, epoch), cut.queue))
  }

  function CutIfDue(format: FileFormat, interval: nat, io: ProcessorIO, elapsed: bool): ProcessorIO {
    if io.p.end - io.p.start >= interval || elapsed then Reset(Cut(format, io)) else io
  }

  function ProcessCheckpoint(
    format: FileFormat, interval: nat, io: ProcessorIO, n: nat, cp: Checkpoint, elapsed: bool): Outcome<ProcessorIO>
  {
    var io1 := AtEpoch(format, io, cp.epoch);
    if cp.epoch != io1.p.epoch || n != io1.p.end then Panicked
    else
      var io2 := CutIfDue(format, interval, io1, elapsed);
      if io2.p.end + 1 > U64_MAX then Err
      else Ok(io2.(p := io2.p.(buffer := io2.p.buffer + cp.rows, end := io2.p.end + 1)))
  }

  /** A checkpoint is taken exactly when it is the next one, of this epoch or a later one; only overflow is an error. */
  lemma ProcessTakesExactly(format: FileFormat, interval: nat, io: ProcessorIO, n: nat, cp: Checkpoint, elapsed: bool)
    ensures var r := ProcessCheckpoint(format, interval, io, n, cp, elapsed);
      && (r.Ok? <==> n == io.p.end < U64_MAX && cp.epoch >= io.p.epoch)
      && (r.Err? <==> n == io.p.end >= U64_MAX && cp.epoch >= io.p.epoch)
  {}

  /** When a checkpoint closes the open file: for a later epoch, at the interval, or after the timeout. */
  predicate Due(interval: nat, p: Processor, cp: Checkpoint, elapsed: bool) {
    cp.epoch > p.epoch || p.end - p.start >= interval || elapsed
  }

  /**
   * Exactly then does the checkpoint start a file of its own; the closed one is queued unless it is a Parquet file
   * without rows, and what is queued is on disk with all the rows buffered.
   */
  lemma ProcessCutsExactly(format: FileFormat, interval: nat, io: ProcessorIO, n: nat, cp: Checkpoint, elapsed: bool)
    requires ProcessCheckpoint(format, interval, io, n, cp, elapsed).Ok? && io.p.start <= io.p.end
    requires io.p.start == io.p.end ==> io.p.buffer == []
    ensures var io' := ProcessCheckpoint(format, interval, io, n, cp, elapsed).value;
      var due, f := Due(interval, io.p, cp, elapsed), FileName(io.p.epoch, io.p.start, io.p.end);
      var queued := io.p.start < io.p.end && due && (format.Csv? || io.p.buffer != []);
      && io'.p == Processor(cp.epoch, if due then io.p.end else io.p.start, io.p.end + 1, (if due then [] else io.p.buffer) + cp.rows)
      && io'.queue == (if queued then io.queue + [f] else io.queue)
      && (queued ==> f in io'.local && io'.local[f] == io.p.buffer)
  {}

  /** Moving to a later epoch leaves nothing of an earlier run in that epoch's directory, and touches no other. */
  lemma EpochDirCleared(format: FileFormat, io: ProcessorIO, epoch: nat, f: FileName)
    requires epoch > io.p.epoch
    ensures var io' := AtEpoch(format, io, epoch);
      && (f.epoch == epoch ==> f !in io'.local)
      && (f.epoch != epoch && f in io.local ==> f in io'.local)
  {}

  // --- The resume point ---

  function LastEpoch(files: seq<FileName>): (r: nat)
    ensures forall f | f in files :: f.epoch <= r
    ensures files == [] ==> r == 0
    ensures files != [] ==> exists f :: f in files && f.epoch == r
  {
    if files == [] then 0
    else
      var rest := LastEpoch(files[1..]);
      assert files == [files[0]] + files[1..];
      if |files| == 1 || files[0].epoch > rest then assert files[0] in files; files[0].epoch else rest
  }

  function LastEnd(files: seq<FileName>, epoch: nat): (r: nat)
    ensures forall f | f in files && f.epoch == epoch :: f.end <= r
    ensures r == 0 || exists f :: f in files && f.epoch == epoch && f.end == r
  {
    if files == [] then 0
    else
      var rest := LastEnd(files[1..], epoch);
      assert files == [files[0]] + files[1..];
      if files[0].epoch == epoch && files[0].end > rest then files[0].end else rest
  }

  /** The greatest end among the files of the greatest epoch. */
  function ReadStoreForCheckpoint(files: seq<FileName>): nat {
    LastEnd(files, LastEpoch(files))
  }

  // --- The protocol ---

  const CHANNEL_CAPACITY: nat := 100

  /** `done` records the files put in the remote store, in order. */
  datatype System = System(
    processor: Option<Processor>,
    local: map<FileName, seq<Row>>,
    queue: seq<FileName>,
    remote: map<FileName, seq<Row>>,
    done: seq<FileName>)

  /** `prefixed`: uploads go under a path prefix, where the listing at start does not look. */
  datatype Config = Config(h: seq<Checkpoint>, format: FileFormat, interval: nat, prefixed: bool, startAt: Option<nat>)

  datatype Step =
    | Process(elapsed: bool)
    | Upload
    | Crash(leftover: map<FileName, seq<Row>>)
    | Start(listing: seq<FileName>)

  const INITIAL: System := System(None, map[], [], map[], [])

  function Abort(s: System): System {
    s.(processor := None, queue := [])
  }

  function Tail(g: Config, s: System, elapsed: bool): Outcome<ProcessorIO>
    requires s.processor.Some? && s.processor.value.end < |g.h|
  {
    var n := s.processor.value.end;
    ProcessCheckpoint(g.format, g.interval, ProcessorIO(s.processor.value, s.local, s.queue), n, g.h[n], elapsed)
  }

  function StartingPoint(g: Config, listing: seq<FileName>): nat {
    match g.startAt
    case Some(n) => n
    case None => if g.prefixed then 0 else ReadStoreForCheckpoint(listing)
  }

  /** The listing a start works from is the remote store's, in any order. */
  predicate Enabled(g: Config, s: System, step: Step) {
    match step
    case Process(elapsed) =>
      && s.processor.Some? && s.processor.value.end < |g.h|
      && (Tail(g, s, elapsed).Ok? ==> |Tail(g, s, elapsed).value.queue| <= CHANNEL_CAPACITY)
    case Upload => s.queue != []
    case Crash(_) => true
    case Start(listing) => s.processor.None? && (set f | f in listing) == s.remote.Keys
  }

  /** An empty file is not copied. The local file is removed in either case. */
  function Apply(g: Config, s: System, step: Step): System
    requires Enabled(g, s, step)
  {
    match step
    case Process(elapsed) =>
      (match Tail(g, s, elapsed)
       case Ok(io) => s.(processor := Some(io.p), local := io.local, queue := io.queue)
       case _ => Abort(s))
    case Upload =>
      var f := s.queue[0];
      if f !in s.local then Abort(s)
      else if s.local[f] == [] then s.(local := s.local - {f}, queue := s.queue[1..])
      else s.(local := s.local - {f}, queue := s.queue[1..], remote := s.remote[f := s.local[f]], done := s.done + [f])
    case Crash(leftover) => Abort(s).(local := leftover)
    case Start(listing) => s.(processor := Some(NewProcessor(StartingPoint(g, listing))))
  }

  function Run(g: Config, s: System, steps: seq<Step>): Option<System>
    decreases steps
  {
    if steps == [] then Some(s)
    else if Enabled(g, s, steps[0]) then Run(g, Apply(g, s, steps[0]), steps[1..])
    else None
  }

  // --- The processor as it runs ---

  class AnalyticsProcessor {
    const format: FileFormat
    const interval: nat
    var epoch: nat
    var start: nat
    var end: nat
    var writerEpoch: nat
    var writerStart: nat
    var buffer: seq<Row>
    var local: map<FileName, seq<Row>>
    var sender: seq<FileName>

    ghost function Io(): ProcessorIO
      reads this
    {
      ProcessorIO(Processor(epoch, start, end, buffer), local, sender)
    }

    /** The file writer is open on the epoch and start the processor believes in. */
    ghost predicate Valid()
      reads this
    {
      start <= end && writerEpoch == epoch && writerStart == start
    }

    constructor (format: FileFormat, interval: nat, resume: nat, disk: map<FileName, seq<Row>>)
      ensures Valid() && this.format == format && this.interval == interval
      ensures Io() == ProcessorIO(NewProcessor(resume), disk, [])
    {
      this.format, this.interval := format, interval;
      epoch, start, end := 0, resume, resume;
      writerEpoch, writerStart, buffer := 0, resume, [];
      local, sender := disk, [];
    }

    /** Whether a file was finished; it is named by what the writer knows. */
    method Flush() returns (flushed: bool)
      modifies `local
      ensures flushed == Flushes(format, buffer)
      ensures local == if flushed then old(local)[FileName(writerEpoch, writerStart, end) := buffer] else old(local)
    {
      flushed := format.Csv? || buffer != [];
      if flushed { local := local[FileName(writerEpoch, writerStart, end) := buffer]; }
    }

    method CutFile()
      requires Valid()
      modifies `local, `sender
      ensures Valid() && Io() == Cut(format, old(Io()))
    {
      if start != end {
        var flushed := Flush();
        if flushed { sender := sender + [FileName(epoch, start, end)]; }
      }
    }

    method ResetFile()
      requires start <= end
      modifies `start, `writerEpoch, `writerStart, `buffer
      ensures Valid() && Io() == Reset(old(Io()))
    {
      start := end;
      writerEpoch, writerStart, buffer := epoch, start, [];
    }

    method Process(n: nat, cp: Checkpoint, elapsed: bool) returns (r: Outcome<()>)
      requires Valid()
      modifies this
      ensures Valid()
      ensures match ProcessCheckpoint(format, interval, old(Io()), n, cp, elapsed)
        case Ok(io) => r == Ok(()) && Io() == io
        case Err => r == Err
        case Panicked => r == Panicked
    {
      if cp.epoch > epoch {
        CutFile();
        epoch := cp.epoch;
        local := RemoveEpochDir(local, epoch);
        ResetFile();
      }
      if cp.epoch != epoch || n != end { return Panicked; }
      if end - start >= interval || elapsed {
        CutFile();
        ResetFile();
      }
      buffer := buffer + cp.rows;
      if end + 1 > U64_MAX { return Err; }
      end := end + 1;
      return Ok(());
    }
  }
}
