/**
 * Exactly-once delivery needs the resume point to be read off the remote store. With a path prefix the listing
 * finds nothing, and with a configured start it is not looked at: every start is then at the same checkpoint, and
 * one crash can have rows uploaded twice. This module says exactly when.
 */
module AnalyticsRepeats {
  import opened Prelude
  import opened AnalyticsIndexer
  import opened AnalyticsTheorems

  /** Where every start begins, if that does not depend on what was uploaded. */
  function FixedStart(g: Config): Option<nat> {
    if g.startAt.Some? then g.startAt else if g.prefixed then Some(0) else None
  }

  predicate Holds(f: FileName, n: nat) {
    f.start <= n < f.end
  }

  ghost predicate InTwoFiles(s: System, f1: FileName, f2: FileName, n: nat) {
    f1 in s.remote && f2 in s.remote && f1 != f2 && Holds(f1, n) && Holds(f2, n)
  }

  /** Some run puts a checkpoint in two files of the remote store. */
  ghost predicate Repeats(g: Config) {
    exists s, f1, f2, n :: Reachable(g, s) && InTwoFiles(s, f1, f2, n)
  }

  /** Checkpoints `n` and `n + 1` can share a file that has rows, and a later checkpoint can close it. */
  ghost predicate Shares(g: Config, n: nat) {
    n + 2 < |g.h| && g.h[n].epoch == g.h[n + 1].epoch && (g.h[n].rows != [] || g.h[n + 1].rows != [])
  }

  /** Starts are fixed, files may hold two checkpoints, and two checkpoints past the start can share one. */
  ghost predicate Repeatable(g: Config) {
    FixedStart(g).Some? && g.interval >= 2 && exists n: nat | FixedStart(g).value <= n :: Shares(g, n)
  }

  // --- What a fixed start can upload ---

  function Longest(interval: nat): nat {
    if interval < 1 then 1 else interval
  }

  /** A file that was cut after a start at `k`: it ends before the history does, and is not too long. */
  ghost predicate CutFrom(g: Config, k: nat, f: FileName) {
    GoodFile(g.h, f) && k <= f.start && f.end < |g.h| && f.end - f.start <= Longest(g.interval)
  }

  ghost predicate UploadedOk(g: Config, k: nat, remote: map<FileName, seq<Row>>) {
    forall f | f in remote :: CutFrom(g, k, f) && RowsOf(g.h, f.start, f.end) != []
  }

  ghost predicate QueuedOk(g: Config, k: nat, queue: seq<FileName>, local: map<FileName, seq<Row>>) {
    && (forall f | f in queue :: CutFrom(g, k, f))
    && (forall f | f in queue && f in local :: local[f] == RowsOf(g.h, f.start, f.end))
  }

  ghost predicate OpenOk(g: Config, k: nat, p: Processor) {
    && k <= p.start <= p.end && p.end - p.start <= Longest(g.interval)
    && (p.start == p.end ==> p.buffer == [])
    && (p.start < p.end ==> p.end <= |g.h| && p.buffer == RowsOf(g.h, p.start, p.end))
    && (forall j | p.start <= j < p.end && j < |g.h| :: g.h[j].epoch == p.epoch)
  }

  ghost predicate IoOk(g: Config, k: nat, io: ProcessorIO) {
    OpenOk(g, k, io.p) && QueuedOk(g, k, io.queue, io.local)
  }

  ghost predicate FixedInv(g: Config, k: nat, s: System) {
    && UploadedOk(g, k, s.remote) && QueuedOk(g, k, s.queue, s.local)
    && (s.processor.Some? ==> OpenOk(g, k, s.processor.value))
  }

  lemma CutOk(g: Config, k: nat, io: ProcessorIO)
    requires IoOk(g, k, io) && io.p.end < |g.h|
    ensures IoOk(g, k, Reset(Cut(g.format, io)))
  {}

  lemma AtEpochOk(g: Config, k: nat, io: ProcessorIO, epoch: nat)
    requires IoOk(g, k, io) && io.p.end < |g.h|
    ensures var io' := AtEpoch(g.format, io, epoch); IoOk(g, k, io') && io'.p.end == io.p.end
  {
    CutOk(g, k, io);
  }

  lemma CutIfDueOk(g: Config, k: nat, io: ProcessorIO, elapsed: bool)
    requires IoOk(g, k, io) && io.p.end < |g.h|
    ensures var io' := CutIfDue(g.format, g.interval, io, elapsed);
      && IoOk(g, k, io') && io'.p.end == io.p.end && io'.p.epoch == io.p.epoch
      && (io'.p.start == io'.p.end || io'.p.end - io'.p.start < g.interval)
  {
    CutOk(g, k, io);
  }

  lemma ProcessOk(g: Config, k: nat, s: System, elapsed: bool)
    requires FixedInv(g, k, s) && Enabled(g, s, Process(elapsed))
    ensures FixedInv(g, k, Apply(g, s, Process(elapsed)))
  {
    var io := ProcessorIO(s.processor.value, s.local, s.queue);
    var cp := g.h[io.p.end];
    AtEpochOk(g, k, io, cp.epoch);
    var io1 := AtEpoch(g.format, io, cp.epoch);
    CutIfDueOk(g, k, io1, elapsed);
  }

  lemma FixedStep(g: Config, k: nat, s: System, step: Step)
    requires FixedStart(g) == Some(k) && FixedInv(g, k, s) && Enabled(g, s, step)
    ensures FixedInv(g, k, Apply(g, s, step))
  {
    match step
    case Process(elapsed) => ProcessOk(g, k, s, elapsed);
    case Upload => assert s.queue[0] in s.queue;
    case Crash(_) =>
    case Start(listing) =>
  }

  lemma {:induction false} FixedRun(g: Config, k: nat, s: System, steps: seq<Step>)
    requires FixedStart(g) == Some(k) && FixedInv(g, k, s) && Run(g, s, steps).Some?
    ensures FixedInv(g, k, Run(g, s, steps).value)
    decreases steps
  {
    if steps == [] {
    } else {
      FixedStep(g, k, s, steps[0]);
      FixedRun(g, k, Apply(g, s, steps[0]), steps[1..]);
    }
  }

  /** Somewhere in a range with rows there is a checkpoint with rows. */
  lemma {:induction false} RowsSomewhere(h: seq<Checkpoint>, i: nat, j: nat) returns (m: nat)
    requires i <= j <= |h| && RowsOf(h, i, j) != []
    ensures i <= m < j && h[m].rows != []
  {
    if h[j - 1].rows != [] {
      m := j - 1;
    } else {
      m := RowsSomewhere(h, i, j - 1);
    }
  }

  /** An uploaded file of two checkpoints or more shows that two can share one. */
  lemma LongFileShares(g: Config, k: nat, f: FileName) returns (n: nat)
    requires CutFrom(g, k, f) && RowsOf(g.h, f.start, f.end) != [] && f.end - f.start >= 2
    ensures g.interval >= 2 && k <= n && Shares(g, n)
  {
    var m := RowsSomewhere(g.h, f.start, f.end);
    n := if m + 1 < f.end then m else m - 1;
  }

  /** Two files with a checkpoint in common are not both of one checkpoint. */
  lemma RepeatShares(g: Config, k: nat, s: System, f1: FileName, f2: FileName, n: nat)
    requires FixedStart(g) == Some(k) && FixedInv(g, k, s) && InTwoFiles(s, f1, f2, n)
    ensures Repeatable(g)
  {
    assert f1.epoch == g.h[n].epoch == f2.epoch;
    var f := if f1.end - f1.start >= 2 then f1 else f2;
    var m := LongFileShares(g, k, f);
  }

  // --- A run that repeats ---

  lemma {:induction false} RunSnoc(g: Config, s: System, steps: seq<Step>, step: Step)
    requires Run(g, s, steps).Some? && Enabled(g, Run(g, s, steps).value, step)
    ensures Run(g, s, steps + [step]) == Some(Apply(g, Run(g, s, steps).value, step))
    decreases steps
  {
    if steps == [] {
      assert [step][1..] == [] && [] + [step] == [step];
    } else {
      assert (steps + [step])[1..] == steps[1..] + [step];
      RunSnoc(g, Apply(g, s, steps[0]), steps[1..], step);
    }
  }

  lemma ReachableStep(g: Config, s: System, step: Step) returns (s': System)
    requires Reachable(g, s) && Enabled(g, s, step)
    ensures s' == Apply(g, s, step) && Reachable(g, s')
  {
    var steps :| Run(g, INITIAL, steps) == Some(s);
    RunSnoc(g, INITIAL, steps, step);
    s' := Apply(g, s, step);
  }

  /** A running indexer with nothing queued, whose open file holds exactly the checkpoints `i..j`. */
  ghost predicate OpenOn(g: Config, s: System, i: nat, j: nat) {
    && Reachable(g, s) && s.queue == [] && i < j <= |g.h| <= U64_MAX
    && s.processor == Some(Processor(g.h[j - 1].epoch, i, j, RowsOf(g.h, i, j)))
  }

  /** A start at `k`, and the first checkpoint processed. */
  lemma Starts(g: Config, s: System, k: nat, listing: seq<FileName>) returns (s': System)
    requires WellFormed(g.h) && FixedStart(g) == Some(k) && k < |g.h|
    requires Reachable(g, s) && s.processor.None? && s.queue == [] && (set f | f in listing) == s.remote.Keys
    ensures OpenOn(g, s', k, k + 1) && s'.remote == s.remote
  {
    s' := ReachableStep(g, s, Start(listing));
    s' := ReachableStep(g, s', Process(true));
    assert RowsOf(g.h, k, k + 1) == [] + g.h[k].rows;
  }

  /** The next checkpoint joins the open file. */
  lemma Joins(g: Config, s: System, i: nat) returns (s': System)
    requires OpenOn(g, s, i, i + 1) && i + 1 < |g.h| && g.h[i].epoch == g.h[i + 1].epoch && g.interval >= 2
    ensures OpenOn(g, s', i, i + 2) && s'.remote == s.remote
  {
    s' := ReachableStep(g, s, Process(false));
    assert RowsOf(g.h, i, i + 2) == RowsOf(g.h, i, i + 1) + g.h[i + 1].rows;
  }

  /** The next checkpoint closes the open file and opens one of its own. */
  lemma ProcessCloses(g: Config, s: System, i: nat, j: nat) returns (s': System)
    requires OpenOn(g, s, i, j) && j < |g.h| && WellFormed(g.h)
    ensures Reachable(g, s') && s'.remote == s.remote
    ensures s'.processor == Some(Processor(g.h[j].epoch, j, j + 1, RowsOf(g.h, j, j + 1)))
    ensures var f, rows := FileName(g.h[j - 1].epoch, i, j), RowsOf(g.h, i, j);
      if Flushes(g.format, rows) then s'.queue == [f] && f in s'.local && s'.local[f] == rows else s'.queue == []
  {
    assert RowsOf(g.h, j, j + 1) == [] + g.h[j].rows;
    assert g.h[j - 1].epoch <= g.h[j].epoch;
    s' := ReachableStep(g, s, Process(true));
  }

  /** The closed file is uploaded if it has rows; nothing leaves the remote store. */
  lemma Closes(g: Config, s: System, i: nat, j: nat) returns (s': System)
    requires OpenOn(g, s, i, j) && j < |g.h| && WellFormed(g.h)
    ensures OpenOn(g, s', j, j + 1) && s.remote.Keys <= s'.remote.Keys
    ensures RowsOf(g.h, i, j) != [] ==> FileName(g.h[j - 1].epoch, i, j) in s'.remote
  {
    s' := ProcessCloses(g, s, i, j);
    if Flushes(g.format, RowsOf(g.h, i, j)) {
      s' := ReachableStep(g, s', Upload);
    }
  }

  /** Checkpoint by checkpoint from `k` to `n`, which ends up alone in the open file. */
  lemma {:induction false} Advances(g: Config, s: System, k: nat, n: nat, listing: seq<FileName>) returns (s': System)
    requires WellFormed(g.h) && FixedStart(g) == Some(k) && k <= n < |g.h|
    requires Reachable(g, s) && s.processor.None? && s.queue == [] && (set f | f in listing) == s.remote.Keys
    ensures OpenOn(g, s', n, n + 1) && s.remote.Keys <= s'.remote.Keys
    decreases n
  {
    if n == k {
      s' := Starts(g, s, k, listing);
    } else {
      s' := Advances(g, s, k, n - 1, listing);
      s' := Closes(g, s', n - 1, n);
    }
  }

  lemma Crashes(g: Config, s: System) returns (s': System)
    requires Reachable(g, s)
    ensures Reachable(g, s') && s'.processor.None? && s'.queue == [] && s'.remote == s.remote
  {
    s' := ReachableStep(g, s, Crash(map[]));
  }

  /** Some order of a finite set of names. */
  lemma {:induction false} Listing(names: set<FileName>) returns (listing: seq<FileName>)
    ensures (set f | f in listing) == names
  {
    if names == {} {
      listing := [];
    } else {
      var f :| f in names;
      var rest := Listing(names - {f});
      listing := [f] + rest;
      assert (set x | x in listing) == {f} + (set x | x in rest) == names;
    }
  }

  /** First the two checkpoints are uploaded in one file. */
  lemma UploadsTogether(g: Config, k: nat, n: nat) returns (s: System)
    requires WellFormed(g.h) && FixedStart(g) == Some(k) && k <= n && g.interval >= 2 && Shares(g, n)
    ensures Reachable(g, s) && FileName(g.h[n].epoch, n, n + 2) in s.remote
  {
    assert Run(g, INITIAL, []) == Some(INITIAL);
    s := Advances(g, INITIAL, k, n, []);
    s := Joins(g, s, n);
    assert RowsOf(g.h, n, n + 2) == RowsOf(g.h, n, n + 1) + g.h[n + 1].rows;
    assert RowsOf(g.h, n, n + 1) == RowsOf(g.h, n, n) + g.h[n].rows;
    s := Closes(g, s, n, n + 2);
  }

  /** After a crash, the one with rows is uploaded in a file of its own. */
  lemma UploadsApart(g: Config, k: nat, n: nat, s: System) returns (s': System, m: nat)
    requires WellFormed(g.h) && FixedStart(g) == Some(k) && k <= n && Shares(g, n)
    requires Reachable(g, s) && s.processor.None? && s.queue == []
    ensures Reachable(g, s') && s.remote.Keys <= s'.remote.Keys
    ensures n <= m <= n + 1 && FileName(g.h[m].epoch, m, m + 1) in s'.remote
  {
    var listing := Listing(s.remote.Keys);
    s' := Advances(g, s, k, n, listing);
    m := n;
    assert RowsOf(g.h, n, n + 1) == RowsOf(g.h, n, n) + g.h[n].rows;
    s' := Closes(g, s', n, n + 1);
    if g.h[n].rows == [] {
      m := n + 1;
      assert RowsOf(g.h, m, m + 1) == RowsOf(g.h, m, m) + g.h[m].rows;
      s' := Closes(g, s', m, m + 1);
    }
  }

  /** With one crash, a fixed start puts a checkpoint in two files, for every pair that can share one. */
  lemma FixedStartRepeats(g: Config, k: nat, n: nat)
    requires WellFormed(g.h) && FixedStart(g) == Some(k) && k <= n && g.interval >= 2 && Shares(g, n)
    ensures Repeats(g)
  {
    var s := UploadsTogether(g, k, n);
    s := Crashes(g, s);
    var s', m := UploadsApart(g, k, n, s);
    var f1, f2 := FileName(g.h[n].epoch, n, n + 2), FileName(g.h[m].epoch, m, m + 1);
    assert f1 in s'.remote.Keys;
    assert InTwoFiles(s', f1, f2, m);
  }

  // --- Exactly when ---

  lemma RangesDiffer(h: seq<Checkpoint>, done: seq<FileName>, i: nat, j: nat, n: nat)
    requires GoodFiles(h, done) && i < |done| && j < |done| && Holds(done[i], n) && Holds(done[j], n)
    ensures i == j
  {
    if i < j { StartsIncrease(h, done, i, j); }
    if j < i { StartsIncrease(h, done, j, i); }
  }

  /** When the resume point is read off the store, no checkpoint is ever in two files. */
  lemma NeverRepeats(g: Config, s: System, f1: FileName, f2: FileName, n: nat)
    requires WellFormed(g.h) && FixedStart(g).None? && Reachable(g, s)
    requires f1 in s.remote && f2 in s.remote && Holds(f1, n) && Holds(f2, n)
    ensures f1 == f2
  {
    ReachableInv(g, s);
    var i :| 0 <= i < |s.done| && s.done[i] == f1;
    var j :| 0 <= j < |s.done| && s.done[j] == f2;
    RangesDiffer(g.h, s.done, i, j, n);
  }

  lemma RepeatsOnlyIf(g: Config, s: System, f1: FileName, f2: FileName, n: nat)
    requires WellFormed(g.h) && Reachable(g, s) && InTwoFiles(s, f1, f2, n)
    ensures Repeatable(g)
  {
    if FixedStart(g).None? {
      NeverRepeats(g, s, f1, f2, n);
      assert false;
    } else {
      var k := FixedStart(g).value;
      var steps :| Run(g, INITIAL, steps) == Some(s);
      FixedRun(g, k, INITIAL, steps);
      RepeatShares(g, k, s, f1, f2, n);
    }
  }

  /**
   * Some run puts a checkpoint in two files exactly when starts are fixed, files may hold two checkpoints, and past
   * the start there are two neighbours of one epoch, one of them with rows, that are not the end of the history.
   */
  lemma RepeatsExactly(g: Config)
    requires WellFormed(g.h)
    ensures Repeats(g) <==> Repeatable(g)
  {
    if Repeats(g) {
      var s, f1, f2, n :| Reachable(g, s) && InTwoFiles(s, f1, f2, n);
      RepeatsOnlyIf(g, s, f1, f2, n);
    }
    if Repeatable(g) {
      var n: nat :| FixedStart(g).value <= n && Shares(g, n);
      FixedStartRepeats(g, FixedStart(g).value, n);
    }
  }
}
