/** That the analytics indexer moves: from every state, after any crashes, all rows but the last checkpoint's can be uploaded. */
module AnalyticsProgress {
  import opened Prelude
  import opened AnalyticsIndexer
  import opened AnalyticsTheorems
  import opened AnalyticsRepeats

  /** Some run leads from `s` to `s'`. */
  ghost predicate Leads(g: Config, s: System, s': System) {
    exists steps :: Run(g, s, steps) == Some(s')
  }

  lemma LeadsStep(g: Config, from: System, s: System, step: Step) returns (s': System)
    requires Resumes(g) && Leads(g, from, s) && Inv(g, s) && Enabled(g, s, step)
    ensures s' == Apply(g, s, step) && Leads(g, from, s') && Inv(g, s')
  {
    var steps :| Run(g, from, steps) == Some(s);
    RunSnoc(g, from, steps, step);
    StepKeepsInv(g, s, step);
    s' := Apply(g, s, step);
  }

  /** Whatever is queued can be uploaded. */
  lemma {:induction false} Drains(g: Config, from: System, s: System) returns (s': System)
    requires Resumes(g) && Leads(g, from, s) && Inv(g, s) && s.processor.Some?
    ensures Leads(g, from, s') && Inv(g, s') && s'.processor == s.processor && s'.queue == []
    decreases |s.queue|
  {
    if s.queue == [] {
      s' := s;
    } else {
      UploadKeepsInv(g, s);
      s' := LeadsStep(g, from, s, Upload);
      s' := Drains(g, from, s');
    }
  }

  /** An upload moves the oldest queued file: with all rows of its range to the remote store, unless it has none, and off the disk. */
  lemma UploadMoves(g: Config, s: System)
    requires Resumes(g) && Reachable(g, s) && s.queue != []
    ensures var f, s' := s.queue[0], Apply(g, s, Upload);
      && GoodFile(g.h, f) && var rows := RowsOf(g.h, f.start, f.end);
      && s'.remote == (if rows == [] then s.remote else s.remote[f := rows])
      && s'.local == s.local - {f} && s'.queue == s.queue[1..] && s'.processor == s.processor
  {
    ReachableInv(g, s);
    assert s.queue[0] in s.queue;
  }

  lemma OpenFile(g: Config, s: System)
    requires Inv(g, s) && s.processor.Some?
    ensures var p := s.processor.value; p.start <= p.end <= |g.h| && (p.start == p.end ==> p.buffer == [])
  {}

  /** A process step waits for nothing but room for one file in the channel. */
  lemma ProcessHasRoom(g: Config, s: System, elapsed: bool)
    requires Resumes(g) && Inv(g, s) && s.processor.Some? && s.processor.value.end < |g.h| && |s.queue| < 100
    ensures Enabled(g, s, Process(elapsed))
    ensures var p', cp := Apply(g, s, Process(elapsed)).processor, g.h[s.processor.value.end];
      p'.Some? && p'.value.end == s.processor.value.end + 1 && (elapsed ==> p'.value.start == s.processor.value.end)
  {
    var p := s.processor.value;
    OpenFile(g, s);
    ProcessKeepsInv(g, s, elapsed);
    ProcessCutsExactly(g.format, g.interval, ProcessorIO(p, s.local, s.queue), p.end, g.h[p.end], elapsed);
  }

  /** The rest of the history can be processed, each checkpoint closing the file before. */
  lemma {:induction false} ProcessesOn(g: Config, from: System, s: System) returns (s': System)
    requires Resumes(g) && Leads(g, from, s) && Inv(g, s) && s.processor.Some? && s.processor.value.end < |g.h|
    ensures Leads(g, from, s') && Inv(g, s') && s'.queue == []
    ensures s'.processor.Some? && s'.processor.value.start + 1 == |g.h|
    decreases |g.h| - s.processor.value.end
  {
    s' := Drains(g, from, s);
    ProcessHasRoom(g, s', true);
    s' := LeadsStep(g, from, s', Process(true));
    if s'.processor.value.end == |g.h| {
      s' := Drains(g, from, s');
    } else {
      s' := ProcessesOn(g, from, s');
    }
  }

  lemma NothingQueued(g: Config, s: System) returns (end: nat)
    requires Inv(g, s) && s.processor.Some? && s.queue == []
    ensures end == EndAt(s.done, |s.done|) <= s.processor.value.start <= |g.h| && RowsOf(g.h, end, s.processor.value.start) == []
  {
    assert s.done + [] == s.done;
    end := EndAt(s.done, |s.done|);
  }

  /** With nothing queued, the uploaded rows are all rows below the open file. */
  lemma UploadedUpTo(g: Config, s: System)
    requires Inv(g, s) && s.processor.Some? && s.queue == []
    ensures s.processor.value.start <= |g.h|
    ensures UploadedRows(s.remote, s.done, |s.done|) == RowsOf(g.h, 0, s.processor.value.start)
  {
    var end := NothingQueued(g, s);
    UploadedRowsAre(g.h, s.done, s.remote, |s.done|);
    RowsSplit(g.h, 0, end, s.processor.value.start);
  }

  /** A crash and a start. */
  lemma Restarts(g: Config, from: System, s: System) returns (s': System)
    requires Resumes(g) && Leads(g, from, s) && Inv(g, s)
    ensures Leads(g, from, s') && Inv(g, s') && s'.processor.Some? && s'.queue == []
    ensures s'.processor.value.start == s'.processor.value.end <= |g.h|
  {
    s' := LeadsStep(g, from, s, Crash(map[]));
    var listing := Listing(s'.remote.Keys);
    s' := LeadsStep(g, from, s', Start(listing));
    OpenFile(g, s');
  }

  /**
   * From every reachable state, running or stopped, some run uploads the rows of every checkpoint but at most the
   * last, each exactly once and in order.
   */
  lemma AllRowsCanArrive(g: Config, s: System) returns (s': System, n: nat)
    requires Resumes(g) && Reachable(g, s)
    ensures Leads(g, s, s') && Inv(g, s') && |g.h| <= n + 1 && n <= |g.h|
    ensures UploadedRows(s'.remote, s'.done, |s'.done|) == RowsOf(g.h, 0, n)
  {
    ReachableInv(g, s);
    assert Run(g, s, []) == Some(s);
    s' := Restarts(g, s, s);
    if s'.processor.value.end < |g.h| { s' := ProcessesOn(g, s, s'); }
    UploadedUpTo(g, s');
    n := s'.processor.value.start;
  }

  // --- The channel ---

  lemma {:induction false} RunKeepsBound(g: Config, s: System, steps: seq<Step>)
    requires Run(g, s, steps).Some? && |s.queue| <= 100
    ensures |Run(g, s, steps).value.queue| <= 100
    decreases steps
  {
    if steps == [] {
    } else {
      RunKeepsBound(g, Apply(g, s, steps[0]), steps[1..]);
    }
  }

  /** The channel never holds more than a hundred files. */
  lemma QueueBounded(g: Config, s: System)
    requires Reachable(g, s)
    ensures |s.queue| <= 100
  {
    var steps :| Run(g, INITIAL, steps) == Some(s);
    RunKeepsBound(g, INITIAL, steps);
  }
}
