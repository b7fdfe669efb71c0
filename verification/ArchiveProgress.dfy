/** That an archive moves: what a refresh, a timeout and a new epoch bring about, and that everything can be archived. */
module ArchiveProgress {
  import opened Prelude
  import opened ArchiveTypes
  import opened ArchiveWriter
  import opened ArchiveProtocol
  import opened ArchiveInvariant
  import opened ArchiveTheorems

  // --- The cached manifest ---

  lemma RefreshReadsLast(g: Config, s: System, cuts: seq<CutRange>)
    requires Sound(g) && InvWith(g, s, cuts)
    ensures Apply(g, s, Refresh) == if s.published == [] then s else s.(cache := s.published[|s.published| - 1])
  {
    if s.published != [] { assert EncodableAt(g, cuts, |s.published|); }
  }

  /** A refresh makes the last published manifest the cached one, and changes nothing else. */
  lemma RefreshIsCurrent(g: Config, s: System)
    requires Sound(g) && Reachable(g, s)
    ensures Apply(g, s, Refresh) == if s.published == [] then s else s.(cache := s.published[|s.published| - 1])
  {
    ReachableInv(g, s);
    var cuts :| InvWith(g, s, cuts);
    RefreshReadsLast(g, s, cuts);
  }

  lemma CacheListed(g: Config, s: System)
    requires Inv(g, s)
    ensures s.cache == NewManifest(0, 0) || s.cache in s.published
  {}

  lemma LastEndsLatest(g: Config, s: System, m: Manifest)
    requires Sound(g) && Reachable(g, s) && m in s.published
    ensures m.next <= s.published[|s.published| - 1].next
  {
    var k :| 0 <= k < |s.published| && s.published[k] == m;
    if k < |s.published| - 1 { PublishedManifestsExtend(g, s, k, |s.published| - 1); }
  }

  lemma CacheBelowLast(g: Config, s: System)
    requires Sound(g) && Reachable(g, s) && s.published != []
    ensures s.cache.next <= s.published[|s.published| - 1].next
  {
    ReachableInv(g, s);
    CacheListed(g, s);
    if s.cache in s.published { LastEndsLatest(g, s, s.cache); }
  }

  lemma RefreshKeepsCache(g: Config, s: System)
    requires Sound(g) && Reachable(g, s)
    ensures s.cache.next <= Apply(g, s, Refresh).cache.next
  {
    RefreshIsCurrent(g, s);
    if s.published != [] { CacheBelowLast(g, s); }
  }

  lemma OtherStepsKeepCache(g: Config, s: System, step: Step)
    requires Enabled(g, s, step) && !step.Refresh?
    ensures Apply(g, s, step).cache == s.cache
  {}

  /** The end of the cached manifest never falls. */
  lemma {:induction false} CacheNeverFalls(g: Config, s: System, steps: seq<Step>)
    requires Sound(g) && Reachable(g, s) && Run(g, s, steps).Some?
    ensures s.cache.next <= Run(g, s, steps).value.cache.next
    decreases steps
  {
    if steps == [] {
    } else {
      if steps[0].Refresh? { RefreshKeepsCache(g, s); } else { OtherStepsKeepCache(g, s, steps[0]); }
      var s' := ReachableStep(g, s, steps[0]);
      CacheNeverFalls(g, s', steps[1..]);
    }
  }

  // --- Writing ---

  lemma WriterBounds(g: Config, s: System)
    requires Inv(g, s) && s.writer.Some?
    ensures var w := s.writer.value; w.start <= w.end <= |g.h| && w.pending == g.h[w.start..w.end]
  {}

  lemma RunningWrite(g: Config, s: System, elapsed: bool)
    requires Sound(g) && Reachable(g, s) && Enabled(g, s, WriteNext(elapsed))
    ensures Tail(g, s, elapsed).Ok? && s.writer.value.start <= s.writer.value.end
    ensures s.writer.value.pending == [] <==> s.writer.value.start == s.writer.value.end
  {
    ReachableInv(g, s);
    WriterBounds(g, s);
    var cuts :| InvWith(g, s, cuts);
    WriteKeepsInv(g, s, elapsed, cuts);
  }

  /** In every running archive the next write cuts exactly when a pair is open and due. */
  lemma RunningWriteCuts(g: Config, s: System, elapsed: bool)
    requires Sound(g) && Reachable(g, s) && Enabled(g, s, WriteNext(elapsed))
    ensures var w, e, s' := s.writer.value, g.h[s.writer.value.end], Apply(g, s, WriteNext(elapsed));
      var due := Due(g.c, g.commitSize, w, e, elapsed);
      && s'.writer.Some? && s'.writer.value.end == w.end + 1
      && (s'.queue != s.queue <==> w.pending != [] && due)
      && s'.writer.value.pending == (if due then [e] else w.pending + [e])
      && s'.writer.value.start == (if due then w.end else w.start)
  {
    RunningWrite(g, s, elapsed);
    var io, e := WriterIO(s.writer.value, s.local, s.queue), g.h[s.writer.value.end];
    WriteCutsExactly(g.c, g.commitSize, io, e, elapsed);
    WriteConserves(g.c, g.commitSize, io, e, elapsed);
  }

  /** So a write after the timeout leaves exactly its checkpoint pending. */
  lemma TimeoutWriteAlone(g: Config, s: System)
    requires Sound(g) && Reachable(g, s) && Enabled(g, s, WriteNext(true))
    ensures var w := Apply(g, s, WriteNext(true)).writer;
      w.Some? && w.value.start == s.writer.value.end && w.value.pending == [g.h[s.writer.value.end]]
  {
    RunningWriteCuts(g, s, true);
  }

  /** A write waits for nothing but room for one update in the channel. */
  lemma WriteHasRoom(g: Config, s: System, elapsed: bool)
    requires s.writer.Some? && s.writer.value.end < |g.h| && |s.queue| < 100
    ensures Enabled(g, s, WriteNext(elapsed))
  {
    var io := WriterIO(s.writer.value, s.local, s.queue);
    var e := g.h[io.w.end];
    if Tail(g, s, elapsed).Ok? { WriteConserves(g.c, g.commitSize, io, e, elapsed); }
  }

  // --- The channel ---

  lemma StepKeepsBound(g: Config, s: System, step: Step)
    requires Enabled(g, s, step) && |s.queue| <= 100
    ensures |Apply(g, s, step).queue| <= 100
  {}

  lemma {:induction false} RunKeepsBound(g: Config, s: System, steps: seq<Step>)
    requires Run(g, s, steps).Some? && |s.queue| <= 100
    ensures |Run(g, s, steps).value.queue| <= 100
    decreases steps
  {
    if steps == [] {
    } else {
      StepKeepsBound(g, s, steps[0]);
      RunKeepsBound(g, Apply(g, s, steps[0]), steps[1..]);
    }
  }

  /** The channel never holds more than a hundred updates. */
  lemma QueueBounded(g: Config, s: System)
    requires Reachable(g, s)
    ensures |s.queue| <= 100
  {
    var steps :| Run(g, INITIAL, steps) == Some(s);
    RunKeepsBound(g, INITIAL, steps);
  }

  // --- Local directories ---

  /** The files of the update in hand that are still to be uploaded. */
  ghost function ToUpload(syncing: Syncing): set<Path> {
    match syncing
    case Fetched(u) => {u.summary.FilePath(), u.content.FilePath()}
    case SummaryUploaded(u) => {u.content.FilePath()}
    case _ => {}
  }

  ghost predicate Awaited(syncing: Syncing, queue: seq<CheckpointUpdates>, p: Path) {
    || p in ToUpload(syncing)
    || exists i | 0 <= i < |queue| :: p == queue[i].content.FilePath() || p == queue[i].summary.FilePath()
  }

  /** Every finished file in the directory of the current epoch is waiting to be uploaded. */
  ghost predicate NoStale(syncing: Syncing, io: WriterIO) {
    forall p | p in io.local && p.epoch == io.w.epoch :: Awaited(syncing, io.queue, p)
  }

  lemma AwaitedLonger(syncing: Syncing, queue: seq<CheckpointUpdates>, u: CheckpointUpdates, p: Path)
    requires Awaited(syncing, queue, p) || p == u.content.FilePath() || p == u.summary.FilePath()
    ensures Awaited(syncing, queue + [u], p)
  {
    var longer := queue + [u];
    assert longer[|queue|] == u;
    if p !in ToUpload(syncing) && p != u.content.FilePath() && p != u.summary.FilePath() {
      var i :| 0 <= i < |queue| && (p == queue[i].content.FilePath() || p == queue[i].summary.FilePath());
      assert longer[i] == queue[i];
    }
  }

  lemma CutNoStale(c: Codec, syncing: Syncing, io: WriterIO)
    requires NoStale(syncing, io)
    ensures NoStale(syncing, Reset(Cut(c, io)))
  {
    if io.w.start != io.w.end {
      var cut := Cut(c, io);
      var u := cut.queue[|io.queue|];
      forall p | p in cut.local && p.epoch == io.w.epoch ensures Awaited(syncing, cut.queue, p) {
        AwaitedLonger(syncing, io.queue, u, p);
      }
    }
  }

  lemma WriteNoStale(g: Config, s: System, elapsed: bool)
    requires Enabled(g, s, WriteNext(elapsed)) && Tail(g, s, elapsed).Ok?
    requires NoStale(s.syncing, WriterIO(s.writer.value, s.local, s.queue))
    ensures NoStale(s.syncing, Tail(g, s, elapsed).value)
  {
    var io := WriterIO(s.writer.value, s.local, s.queue);
    var e := g.h[io.w.end];
    var io1 := AtEpoch(g.c, io, e);
    assert NoStale(s.syncing, io1);
    CutNoStale(g.c, s.syncing, io1);
  }

  ghost predicate NoStaleFiles(s: System) {
    s.writer.Some? ==> NoStale(s.syncing, WriterIO(s.writer.value, s.local, s.queue))
  }

  lemma FetchNoStale(g: Config, s: System)
    requires NoStaleFiles(s) && Enabled(g, s, Fetch)
    ensures NoStaleFiles(Apply(g, s, Fetch))
  {
    var s' := Apply(g, s, Fetch);
    if s.writer.Some? {
      forall p | p in s'.local && p.epoch == s'.writer.value.epoch ensures Awaited(s'.syncing, s'.queue, p) {
        assert Awaited(s.syncing, s.queue, p);
        if p !in ToUpload(s'.syncing) {
          var i :| 0 <= i < |s.queue| && (p == s.queue[i].content.FilePath() || p == s.queue[i].summary.FilePath());
          assert s'.queue[i - 1] == s.queue[i];
        }
      }
    }
  }

  lemma SyncNoStale(g: Config, s: System, step: Step)
    requires NoStaleFiles(s) && Enabled(g, s, step) && !step.WriteNext? && !step.Fetch?
    ensures NoStaleFiles(Apply(g, s, step))
  {
    var s' := Apply(g, s, step);
    if s.writer.Some? && s'.writer.Some? {
      forall p | p in s'.local && p.epoch == s'.writer.value.epoch ensures Awaited(s'.syncing, s'.queue, p) {
        if p in s.local && p.epoch == s.writer.value.epoch { assert Awaited(s.syncing, s.queue, p); }
      }
    }
  }

  lemma {:induction false} RunNoStale(g: Config, s: System, steps: seq<Step>)
    requires NoStaleFiles(s) && Run(g, s, steps).Some?
    ensures NoStaleFiles(Run(g, s, steps).value)
    decreases steps
  {
    if steps == [] {
    } else {
      match steps[0] {
        case WriteNext(elapsed) => if Tail(g, s, elapsed).Ok? { WriteNoStale(g, s, elapsed); }
        case Fetch => FetchNoStale(g, s);
        case _ => SyncNoStale(g, s, steps[0]);
      }
      RunNoStale(g, Apply(g, s, steps[0]), steps[1..]);
    }
  }

  /**
   * In every running archive, whatever crashes left behind, each finished file in the directory of the current epoch
   * is one that is waiting to be uploaded: an epoch's directory is cleared before it is used, a file once uploaded.
   */
  lemma EpochDirsAreFresh(g: Config, s: System, p: Path)
    requires Reachable(g, s) && s.writer.Some? && p in s.local && p.epoch == s.writer.value.epoch
    ensures Awaited(s.syncing, s.queue, p)
  {
    var steps :| Run(g, INITIAL, steps) == Some(s);
    RunNoStale(g, INITIAL, steps);
  }

  // --- Everything can be archived ---

  /** Some run leads from `s` to `s'`. */
  ghost predicate Leads(g: Config, s: System, s': System) {
    exists steps :: Run(g, s, steps) == Some(s')
  }

  lemma {:induction false} RunThen(g: Config, s: System, first: seq<Step>, second: seq<Step>)
    requires Run(g, s, first).Some?
    ensures Run(g, s, first + second) == Run(g, Run(g, s, first).value, second)
    decreases first
  {
    if first == [] {
      assert first + second == second;
    } else {
      assert (first + second)[1..] == first[1..] + second;
      RunThen(g, Apply(g, s, first[0]), first[1..], second);
    }
  }

  lemma LeadsOn(g: Config, a: System, b: System, c: System)
    requires Leads(g, a, b) && Leads(g, b, c)
    ensures Leads(g, a, c)
  {
    var first :| Run(g, a, first) == Some(b);
    var second :| Run(g, b, second) == Some(c);
    RunThen(g, a, first, second);
  }

  lemma LeadsReachable(g: Config, s: System, s': System)
    requires Reachable(g, s) && Leads(g, s, s')
    ensures Reachable(g, s')
  {
    assert Leads(g, INITIAL, s);
    LeadsOn(g, INITIAL, s, s');
  }

  lemma Takes(g: Config, s: System, step: Step) returns (s': System)
    requires Reachable(g, s) && Enabled(g, s, step)
    ensures s' == Apply(g, s, step) && Leads(g, s, s') && Reachable(g, s')
  {
    s' := Apply(g, s, step);
    assert [step][1..] == [];
    assert Run(g, s, [step]) == Some(s');
    LeadsReachable(g, s, s');
  }

  /** The update in hand is published. */
  lemma Publishes(g: Config, s: System) returns (s': System)
    requires Sound(g) && Reachable(g, s) && s.writer.Some? && !s.syncing.Idle?
    ensures Leads(g, s, s') && Reachable(g, s')
    ensures s'.syncing.Idle? && s'.writer == s.writer && s'.queue == s.queue
    decreases if s.syncing.Fetched? then 2 else if s.syncing.SummaryUploaded? then 1 else 0
  {
    ReachableInv(g, s);
    if s.syncing.ContentUploaded? {
      s' := Takes(g, s, PublishManifest);
    } else {
      var step := if s.syncing.Fetched? then UploadSummary else UploadContent;
      UploadStaysAlive(g, s, step);
      var mid := Takes(g, s, step);
      s' := Publishes(g, mid);
      LeadsOn(g, s, mid, s');
    }
  }

  /** Whatever is queued can be published. */
  lemma {:induction false} Drains(g: Config, s: System) returns (s': System)
    requires Sound(g) && Reachable(g, s) && s.writer.Some?
    ensures Leads(g, s, s') && Reachable(g, s')
    ensures s'.syncing.Idle? && s'.queue == [] && s'.writer == s.writer
    decreases |s.queue|, if s.syncing.Idle? then 0 else 1
  {
    if !s.syncing.Idle? {
      var mid := Publishes(g, s);
      s' := Drains(g, mid);
      LeadsOn(g, s, mid, s');
    } else if s.queue == [] {
      s' := s;
      assert Run(g, s, []) == Some(s);
    } else {
      var one := Takes(g, s, Fetch);
      var mid := Publishes(g, one);
      s' := Drains(g, mid);
      LeadsOn(g, one, mid, s');
      LeadsOn(g, s, one, s');
    }
  }

  /** With nothing left to publish, the last manifest ends where the open pair starts. */
  lemma DrainedIsPublished(g: Config, s: System)
    requires Inv(g, s) && s.writer.Some? && s.syncing.Idle? && s.queue == []
    ensures s.writer.value.start == if s.published == [] then 0 else s.published[|s.published| - 1].next
  {
    var cuts :| InvWith(g, s, cuts);
    ManifestAtNextAndEpoch(g, cuts, |cuts|);
  }

  /** The rest of the history can be written, each checkpoint closing the pair before. */
  lemma {:induction false} WritesOn(g: Config, s: System) returns (s': System)
    requires Sound(g) && Reachable(g, s) && s.writer.Some? && s.writer.value.end < |g.h|
    ensures Leads(g, s, s') && Reachable(g, s') && s'.writer.Some? && s'.writer.value.start + 1 == |g.h|
    ensures s'.syncing.Idle? && s'.queue == []
    decreases |g.h| - s.writer.value.end
  {
    var a := Drains(g, s);
    WriteHasRoom(g, a, true);
    TimeoutWriteAlone(g, a);
    RunningWriteCuts(g, a, true);
    var b := Takes(g, a, WriteNext(true));
    LeadsOn(g, s, a, b);
    if b.writer.value.end == |g.h| {
      s' := Drains(g, b);
    } else {
      s' := WritesOn(g, b);
    }
    LeadsOn(g, s, b, s');
  }

  /**
   * From every state of an archive that is running short of the end of the history, some run publishes everything
   * but the last checkpoint, which stays in the open pair.
   */
  lemma EverythingCanBePublished(g: Config, s: System) returns (s': System)
    requires Sound(g) && Reachable(g, s) && s.writer.Some? && s.writer.value.end < |g.h| && |g.h| >= 2
    ensures Leads(g, s, s') && s'.published != [] && s'.published[|s'.published| - 1].next == |g.h| - 1
  {
    s' := WritesOn(g, s);
    ReachableInv(g, s');
    DrainedIsPublished(g, s');
  }

  /** A stopped archive can be started whenever `RestartExactly` says so, and nothing published is lost by it. */
  lemma CanGoOn(g: Config, s: System) returns (s': System)
    requires Sound(g) && Reachable(g, s) && s.writer.None? && (s.remote == map[] || s.published != [])
    ensures Leads(g, s, s') && Reachable(g, s') && s'.writer.Some? && s'.published == s.published && s'.remote == s.remote
  {
    RestartExactly(g, s);
    s' := Takes(g, s, Start);
  }
}
