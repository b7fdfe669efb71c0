/** Exactly-once delivery of analytics rows over every run with crashes and restarts. */
module AnalyticsTheorems {
  import opened Prelude
  import opened AnalyticsIndexer

  /** Epochs never go down along the history; they may jump. */
  ghost predicate WellFormed(h: seq<Checkpoint>) {
    && |h| <= U64_MAX
    && forall i, j | 0 <= i <= j < |h| :: h[i].epoch <= h[j].epoch
  }

  /** The rows of checkpoints `i..j`. */
  ghost function RowsOf(h: seq<Checkpoint>, i: nat, j: nat): seq<Row>
    requires i <= j <= |h|
  {
    if i == j then [] else RowsOf(h, i, j - 1) + h[j - 1].rows
  }

  lemma {:induction false} RowsSplit(h: seq<Checkpoint>, i: nat, j: nat, k: nat)
    requires i <= j <= k <= |h|
    ensures RowsOf(h, i, j) + RowsOf(h, j, k) == RowsOf(h, i, k)
  {
    if j == k {
    } else {
      RowsSplit(h, i, j, k - 1);
      var rows := h[k - 1].rows;
      assert RowsOf(h, i, j) + (RowsOf(h, j, k - 1) + rows) == (RowsOf(h, i, j) + RowsOf(h, j, k - 1)) + rows;
    }
  }

  /** Checkpoints without rows can be skipped over. */
  lemma RowsAcross(h: seq<Checkpoint>, i: nat, from: nat, to: nat, k: nat)
    requires i <= from <= to <= k <= |h| && RowsOf(h, from, to) == []
    ensures RowsOf(h, i, k) == RowsOf(h, i, from) + RowsOf(h, to, k)
  {
    RowsSplit(h, i, from, to);
    RowsSplit(h, i, to, k);
  }

  ghost predicate GoodFile(h: seq<Checkpoint>, f: FileName) {
    && f.start < f.end <= |h|
    && forall j | f.start <= j < f.end :: h[j].epoch == f.epoch
  }

  ghost function EndAt(fs: seq<FileName>, n: nat): nat
    requires n <= |fs|
  {
    if n == 0 then 0 else fs[n - 1].end
  }

  /** Between file `i` and the file before it lie only checkpoints without rows. */
  ghost predicate Linked(h: seq<Checkpoint>, fs: seq<FileName>, i: nat)
    requires i < |fs|
  {
    EndAt(fs, i) <= fs[i].start <= |h| && RowsOf(h, EndAt(fs, i), fs[i].start) == []
  }

  ghost predicate GoodFiles(h: seq<Checkpoint>, fs: seq<FileName>) {
    && (forall i | 0 <= i < |fs| :: GoodFile(h, fs[i]))
    && (forall i | 0 <= i < |fs| :: Linked(h, fs, i))
  }

  lemma {:induction false} StartsIncrease(h: seq<Checkpoint>, fs: seq<FileName>, i: nat, j: nat)
    requires GoodFiles(h, fs) && i < j < |fs|
    ensures fs[i].end <= fs[j].start
    decreases j
  {
    assert Linked(h, fs, j);
    if i == j - 1 {
    } else {
      StartsIncrease(h, fs, i, j - 1);
    }
  }

  lemma GoodPrefix(h: seq<Checkpoint>, fs: seq<FileName>, more: seq<FileName>)
    requires GoodFiles(h, fs + more)
    ensures GoodFiles(h, fs)
  {
    forall i | 0 <= i < |fs| ensures GoodFile(h, fs[i]) && Linked(h, fs, i) {
      assert (fs + more)[i] == fs[i];
      assert Linked(h, fs + more, i);
    }
  }

  lemma GoodExtend(h: seq<Checkpoint>, fs: seq<FileName>, f: FileName)
    requires GoodFiles(h, fs) && GoodFile(h, f) && EndAt(fs, |fs|) <= f.start && RowsOf(h, EndAt(fs, |fs|), f.start) == []
    ensures GoodFiles(h, fs + [f])
  {
    forall i | 0 <= i < |fs| + 1 ensures Linked(h, fs + [f], i) {
      assert i < |fs| ==> Linked(h, fs, i);
    }
  }

  // --- The invariant ---

  /** The remote store holds exactly the uploaded files, each with all rows of its range. */
  ghost predicate DoneOk(h: seq<Checkpoint>, done: seq<FileName>, remote: map<FileName, seq<Row>>)
    requires GoodFiles(h, done)
  {
    && (forall f :: f in remote <==> f in done)
    && (forall f | f in done :: f in remote && GoodFile(h, f) && remote[f] == RowsOf(h, f.start, f.end))
  }

  ghost predicate StagedOk(h: seq<Checkpoint>, queue: seq<FileName>, local: map<FileName, seq<Row>>) {
    forall f | f in queue :: f in local && GoodFile(h, f) && local[f] == RowsOf(h, f.start, f.end)
  }

  /** The open file starts where the last one ended, up to checkpoints without rows. */
  ghost predicate ProcessorOk(h: seq<Checkpoint>, filesEnd: nat, queue: seq<FileName>, p: Processor) {
    && filesEnd <= p.start <= p.end <= |h|
    && RowsOf(h, filesEnd, p.start) == []
    && p.buffer == RowsOf(h, p.start, p.end)
    && (forall j | p.start <= j < p.end :: h[j].epoch == p.epoch)
    && (forall f | f in queue :: f.epoch <= p.epoch)
  }

  ghost predicate MidOk(h: seq<Checkpoint>, done: seq<FileName>, io: ProcessorIO) {
    var fs := done + io.queue;
    && GoodFiles(h, fs)
    && StagedOk(h, io.queue, io.local)
    && ProcessorOk(h, EndAt(fs, |fs|), io.queue, io.p)
  }

  ghost predicate Inv(g: Config, s: System) {
    && GoodFiles(g.h, s.done)
    && DoneOk(g.h, s.done, s.remote)
    && (match s.processor
        case None => s.queue == []
        case Some(p) =>
          && MidOk(g.h, s.done, ProcessorIO(p, s.local, s.queue))
          && (p.epoch == 0 || (p.end > 0 && p.epoch == g.h[p.end - 1].epoch)))
  }

  /** The resume point is read off the remote store. */
  ghost predicate Resumes(g: Config) {
    WellFormed(g.h) && !g.prefixed && g.startAt.None?
  }

  // --- Processing ---

  lemma ClosesEmpty(h: seq<Checkpoint>, done: seq<FileName>, io: ProcessorIO)
    requires MidOk(h, done, io) && io.p.buffer == []
    ensures MidOk(h, done, Reset(io))
  {
    var fs := done + io.queue;
    RowsSplit(h, EndAt(fs, |fs|), io.p.start, io.p.end);
  }

  lemma ClosesFile(h: seq<Checkpoint>, done: seq<FileName>, io: ProcessorIO)
    requires MidOk(h, done, io) && io.p.start < io.p.end
    ensures var f := FileName(io.p.epoch, io.p.start, io.p.end);
      MidOk(h, done, Reset(ProcessorIO(io.p, io.local[f := io.p.buffer], io.queue + [f])))
  {
    var f := FileName(io.p.epoch, io.p.start, io.p.end);
    GoodExtend(h, done + io.queue, f);
    assert done + (io.queue + [f]) == (done + io.queue) + [f];
  }

  lemma CutKeepsMid(h: seq<Checkpoint>, format: FileFormat, done: seq<FileName>, io: ProcessorIO)
    requires MidOk(h, done, io)
    ensures MidOk(h, done, Reset(Cut(format, io)))
  {
    if io.p.start == io.p.end || !Flushes(format, io.p.buffer) {
      ClosesEmpty(h, done, io);
    } else {
      ClosesFile(h, done, io);
    }
  }

  lemma AtEpochKeepsMid(h: seq<Checkpoint>, format: FileFormat, done: seq<FileName>, io: ProcessorIO)
    requires WellFormed(h) && MidOk(h, done, io) && io.p.end < |h|
    requires io.p.epoch == 0 || (io.p.end > 0 && io.p.epoch == h[io.p.end - 1].epoch)
    ensures var io' := AtEpoch(format, io, h[io.p.end].epoch);
      MidOk(h, done, io') && io'.p.end == io.p.end && io'.p.epoch == h[io.p.end].epoch
  {
    var epoch := h[io.p.end].epoch;
    if epoch > io.p.epoch {
      CutKeepsMid(h, format, done, io);
      var cut := Reset(Cut(format, io));
      assert forall f | f in cut.queue :: f.epoch <= io.p.epoch;
      assert StagedOk(h, cut.queue, RemoveEpochDir(cut.local, epoch));
    }
  }

  lemma CutIfDueKeepsMid(h: seq<Checkpoint>, format: FileFormat, interval: nat, done: seq<FileName>, io: ProcessorIO, elapsed: bool)
    requires MidOk(h, done, io)
    ensures var io' := CutIfDue(format, interval, io, elapsed);
      MidOk(h, done, io') && io'.p.end == io.p.end && io'.p.epoch == io.p.epoch
  {
    CutKeepsMid(h, format, done, io);
  }

  lemma AppendKeepsMid(h: seq<Checkpoint>, done: seq<FileName>, io: ProcessorIO)
    requires MidOk(h, done, io) && io.p.end < |h| && h[io.p.end].epoch == io.p.epoch
    ensures MidOk(h, done, io.(p := io.p.(buffer := io.p.buffer + h[io.p.end].rows, end := io.p.end + 1)))
  {}

  lemma ProcessKeepsMid(h: seq<Checkpoint>, format: FileFormat, interval: nat, done: seq<FileName>, io: ProcessorIO, elapsed: bool)
    requires WellFormed(h) && MidOk(h, done, io) && io.p.end < |h|
    requires io.p.epoch == 0 || (io.p.end > 0 && io.p.epoch == h[io.p.end - 1].epoch)
    ensures var r := ProcessCheckpoint(format, interval, io, io.p.end, h[io.p.end], elapsed);
      r.Ok? && MidOk(h, done, r.value) && r.value.p.end == io.p.end + 1 && r.value.p.epoch == h[io.p.end].epoch
  {
    AtEpochKeepsMid(h, format, done, io);
    var io1 := AtEpoch(format, io, h[io.p.end].epoch);
    CutIfDueKeepsMid(h, format, interval, done, io1, elapsed);
    AppendKeepsMid(h, done, CutIfDue(format, interval, io1, elapsed));
  }

  /** Processing the next checkpoint neither fails nor panics, and keeps the invariant. */
  lemma ProcessKeepsInv(g: Config, s: System, elapsed: bool)
    requires Resumes(g) && Inv(g, s) && s.processor.Some? && s.processor.value.end < |g.h|
    ensures Tail(g, s, elapsed).Ok?
    ensures var io := Tail(g, s, elapsed).value; Inv(g, s.(processor := Some(io.p), local := io.local, queue := io.queue))
  {
    ProcessKeepsMid(g.h, g.format, g.interval, s.done, ProcessorIO(s.processor.value, s.local, s.queue), elapsed);
  }

  // --- Uploading ---

  lemma HeadDiffers(h: seq<Checkpoint>, done: seq<FileName>, queue: seq<FileName>)
    requires queue != [] && GoodFiles(h, done + queue)
    ensures queue[0] !in queue[1..]
  {
    var fs := done + queue;
    forall j | 0 < j < |queue| ensures queue[j] != queue[0] {
      assert fs[|done|] == queue[0] && fs[|done| + j] == queue[j];
      StartsIncrease(h, fs, |done|, |done| + j);
    }
  }

  /** Dropping file `d`, whose range has no rows, keeps every later file linked. */
  lemma DropLinked(h: seq<Checkpoint>, fs: seq<FileName>, fs': seq<FileName>, d: nat, i: nat)
    requires d < |fs| && GoodFiles(h, fs) && RowsOf(h, fs[d].start, fs[d].end) == []
    requires fs' == fs[..d] + fs[d + 1..] && i < |fs'|
    ensures GoodFile(h, fs'[i]) && Linked(h, fs', i)
  {
    if i < d {
      assert fs'[i] == fs[i] && Linked(h, fs, i);
    } else {
      assert fs'[i] == fs[i + 1] && Linked(h, fs, i + 1);
      if i == d {
        assert Linked(h, fs, d) && EndAt(fs', d) == EndAt(fs, d);
        RowsAcross(h, EndAt(fs, d), fs[d].start, fs[d].end, fs'[d].start);
      }
    }
  }

  lemma DropOnly(h: seq<Checkpoint>, fs: seq<FileName>, fs': seq<FileName>, d: nat)
    requires d + 1 == |fs| && GoodFile(h, fs[d]) && Linked(h, fs, d) && fs' == fs[..d]
    requires RowsOf(h, fs[d].start, fs[d].end) == []
    ensures EndAt(fs', d) <= fs[d].end && RowsOf(h, EndAt(fs', d), fs[d].end) == []
  {
    RowsSplit(h, EndAt(fs, d), fs[d].start, fs[d].end);
  }

  /** An empty file can be dropped from the front of the queue. */
  lemma DropEmpty(h: seq<Checkpoint>, done: seq<FileName>, queue: seq<FileName>)
    requires queue != [] && GoodFiles(h, done + queue) && GoodFile(h, queue[0])
    requires RowsOf(h, queue[0].start, queue[0].end) == []
    ensures GoodFiles(h, done + queue[1..])
    ensures var fs, fs' := done + queue, done + queue[1..];
      var e, e' := EndAt(fs, |fs|), EndAt(fs', |fs'|);
      e' <= e <= |h| && RowsOf(h, e', e) == []
  {
    var fs, fs', d := done + queue, done + queue[1..], |done|;
    assert fs[d] == queue[0] && fs' == fs[..d] + fs[d + 1..];
    forall i | 0 <= i < |fs'| ensures GoodFile(h, fs'[i]) && Linked(h, fs', i) { DropLinked(h, fs, fs', d, i); }
    if |queue| == 1 { DropOnly(h, fs, fs', d); }
  }

  lemma SkipKeepsMid(h: seq<Checkpoint>, done: seq<FileName>, io: ProcessorIO)
    requires MidOk(h, done, io) && io.queue != [] && io.local[io.queue[0]] == []
    ensures MidOk(h, done, ProcessorIO(io.p, io.local - {io.queue[0]}, io.queue[1..]))
  {
    var fs, fs' := done + io.queue, done + io.queue[1..];
    HeadDiffers(h, done, io.queue);
    DropEmpty(h, done, io.queue);
    RowsSplit(h, EndAt(fs', |fs'|), EndAt(fs, |fs|), io.p.start);
  }

  lemma CopyKeepsMid(h: seq<Checkpoint>, done: seq<FileName>, io: ProcessorIO)
    requires MidOk(h, done, io) && io.queue != []
    ensures MidOk(h, done + [io.queue[0]], ProcessorIO(io.p, io.local - {io.queue[0]}, io.queue[1..]))
    ensures GoodFiles(h, done + [io.queue[0]])
  {
    HeadDiffers(h, done, io.queue);
    assert (done + [io.queue[0]]) + io.queue[1..] == done + io.queue;
    GoodPrefix(h, done + [io.queue[0]], io.queue[1..]);
  }

  lemma UploadKeepsInv(g: Config, s: System)
    requires Inv(g, s) && s.queue != []
    ensures Inv(g, Apply(g, s, Upload)) && Apply(g, s, Upload).processor == s.processor
  {
    var io := ProcessorIO(s.processor.value, s.local, s.queue);
    assert s.queue[0] in s.queue;
    if s.local[s.queue[0]] == [] {
      SkipKeepsMid(g.h, s.done, io);
    } else {
      CopyKeepsMid(g.h, s.done, io);
    }
  }

  // --- Restarting ---

  /** The greatest end of the greatest epoch is the end of the last uploaded file, however the listing is ordered. */
  lemma ResumesAtLastEnd(h: seq<Checkpoint>, done: seq<FileName>, listing: seq<FileName>)
    requires WellFormed(h) && GoodFiles(h, done) && (forall f :: f in listing <==> f in done)
    ensures ReadStoreForCheckpoint(listing) == EndAt(done, |done|)
  {
    assert listing != [] ==> listing[0] in done;
    if done != [] {
      var last := done[|done| - 1];
      assert last in done && last in listing;
      forall f | f in done ensures f.epoch <= last.epoch && f.end <= last.end {
        var i :| 0 <= i < |done| && done[i] == f;
        if i < |done| - 1 {
          StartsIncrease(h, done, i, |done| - 1);
          assert h[f.start].epoch <= h[last.start].epoch;
        }
      }
    }
  }

  lemma StartKeepsInv(g: Config, s: System, listing: seq<FileName>)
    requires Resumes(g) && Inv(g, s) && Enabled(g, s, Start(listing))
    ensures Inv(g, Apply(g, s, Start(listing)))
  {
    ListingOk(s, listing);
    ResumesAtLastEnd(g.h, s.done, listing);
    assert s.done + [] == s.done;
  }

  lemma ListingOk(s: System, listing: seq<FileName>)
    requires (set f | f in listing) == s.remote.Keys && (forall f :: f in s.remote <==> f in s.done)
    ensures forall f :: f in listing <==> f in s.done
  {
    forall f ensures f in listing <==> f in s.done {
      assert f in (set f | f in listing) <==> f in s.remote.Keys;
    }
  }

  lemma StepKeepsInv(g: Config, s: System, step: Step)
    requires Resumes(g) && Inv(g, s) && Enabled(g, s, step)
    ensures Inv(g, Apply(g, s, step))
    ensures s.processor.Some? && !step.Crash? ==> Apply(g, s, step).processor.Some?
  {
    match step
    case Process(elapsed) => ProcessKeepsInv(g, s, elapsed);
    case Upload => UploadKeepsInv(g, s);
    case Crash(_) =>
    case Start(listing) => StartKeepsInv(g, s, listing);
  }

  lemma {:induction false} RunKeepsInv(g: Config, s: System, steps: seq<Step>)
    requires Resumes(g) && Inv(g, s) && Run(g, s, steps).Some?
    ensures Inv(g, Run(g, s, steps).value)
    decreases steps
  {
    if steps == [] {
    } else {
      StepKeepsInv(g, s, steps[0]);
      RunKeepsInv(g, Apply(g, s, steps[0]), steps[1..]);
    }
  }

  // --- Exactly once ---

  ghost predicate Reachable(g: Config, s: System) {
    exists steps :: Run(g, INITIAL, steps) == Some(s)
  }

  lemma ReachableInv(g: Config, s: System)
    requires Resumes(g) && Reachable(g, s)
    ensures Inv(g, s)
  {
    var steps :| Run(g, INITIAL, steps) == Some(s);
    RunKeepsInv(g, INITIAL, steps);
  }

  /** The rows of the first `n` uploaded files, one file after the other. */
  ghost function UploadedRows(remote: map<FileName, seq<Row>>, done: seq<FileName>, n: nat): seq<Row>
    requires n <= |done| && forall f | f in done :: f in remote
  {
    if n == 0 then [] else UploadedRows(remote, done, n - 1) + remote[done[n - 1]]
  }

  lemma UploadedRowsNext(h: seq<Checkpoint>, done: seq<FileName>, remote: map<FileName, seq<Row>>, n: nat)
    requires GoodFiles(h, done) && DoneOk(h, done, remote) && 0 < n <= |done| && EndAt(done, n - 1) <= |h|
    ensures EndAt(done, n) <= |h|
    ensures RowsOf(h, 0, EndAt(done, n)) == RowsOf(h, 0, EndAt(done, n - 1)) + remote[done[n - 1]]
  {
    var f := done[n - 1];
    assert f in done && Linked(h, done, n - 1);
    RowsAcross(h, 0, EndAt(done, n - 1), f.start, f.end);
  }

  lemma {:induction false} UploadedRowsAre(h: seq<Checkpoint>, done: seq<FileName>, remote: map<FileName, seq<Row>>, n: nat)
    requires GoodFiles(h, done) && DoneOk(h, done, remote) && n <= |done|
    ensures EndAt(done, n) <= |h| && UploadedRows(remote, done, n) == RowsOf(h, 0, EndAt(done, n))
  {
    if n == 0 {
    } else {
      UploadedRowsAre(h, done, remote, n - 1);
      UploadedRowsNext(h, done, remote, n);
    }
  }

  /**
   * Whatever crashes and restarts came before: the remote files are exactly the uploaded ones, their ranges are
   * disjoint and increasing, each holds one epoch, and their rows put together are the rows of all checkpoints
   * below the point a restart would resume from.
   */
  lemma ExactlyOnce(g: Config, s: System, listing: seq<FileName>)
    requires Resumes(g) && Reachable(g, s) && (set f | f in listing) == s.remote.Keys
    ensures forall f :: f in s.remote <==> f in s.done
    ensures forall i, j | 0 <= i < j < |s.done| :: s.done[i].end <= s.done[j].start
    ensures forall i | 0 <= i < |s.done| :: GoodFile(g.h, s.done[i])
    ensures ReadStoreForCheckpoint(listing) <= |g.h|
    ensures UploadedRows(s.remote, s.done, |s.done|) == RowsOf(g.h, 0, ReadStoreForCheckpoint(listing))
  {
    ReachableInv(g, s);
    ListingOk(s, listing);
    ResumesAtLastEnd(g.h, s.done, listing);
    UploadedRowsAre(g.h, s.done, s.remote, |s.done|);
    forall i, j | 0 <= i < j < |s.done| ensures s.done[i].end <= s.done[j].start { StartsIncrease(g.h, s.done, i, j); }
  }

  /** Nothing but a crash stops a running indexer: no assertion fails and no file to upload is missing. */
  lemma NoStepAborts(g: Config, s: System, step: Step)
    requires Resumes(g) && Reachable(g, s) && Enabled(g, s, step) && s.processor.Some? && !step.Crash?
    ensures Apply(g, s, step).processor.Some?
  {
    ReachableInv(g, s);
    StepKeepsInv(g, s, step);
  }

  lemma StepGrowsDone(g: Config, s: System, step: Step)
    requires Enabled(g, s, step)
    ensures s.done <= Apply(g, s, step).done
  {}

  lemma {:induction false} RunGrowsDone(g: Config, s: System, steps: seq<Step>)
    requires Run(g, s, steps).Some?
    ensures s.done <= Run(g, s, steps).value.done
    decreases steps
  {
    if steps == [] {
    } else {
      StepGrowsDone(g, s, steps[0]);
      RunGrowsDone(g, Apply(g, s, steps[0]), steps[1..]);
    }
  }

  /** An uploaded file stays, with the rows it had. */
  lemma UploadedFilesNeverChange(g: Config, s: System, steps: seq<Step>, f: FileName)
    requires Resumes(g) && Reachable(g, s) && f in s.remote && Run(g, s, steps).Some?
    ensures var s' := Run(g, s, steps).value; f in s'.remote && s'.remote[f] == s.remote[f]
  {
    ReachableInv(g, s);
    RunKeepsInv(g, s, steps);
    RunGrowsDone(g, s, steps);
    assert f in s.done;
    assert f in Run(g, s, steps).value.done;
  }
}
