/** What holds of every run of the archive protocol. */
module ArchiveTheorems {
  import opened Prelude
  import opened ArchiveTypes
  import opened ArchiveWriter
  import opened ArchiveProtocol
  import opened ArchiveInvariant
  import opened ManifestCheck
  import opened ArchiveRead

  ghost predicate Reachable(g: Config, s: System) {
    exists steps :: Run(g, INITIAL, steps) == Some(s)
  }

  lemma ReachableInv(g: Config, s: System)
    requires Sound(g) && Reachable(g, s)
    ensures Inv(g, s)
  {
    var steps :| Run(g, INITIAL, steps) == Some(s);
    InitialInv(g);
    RunKeepsInv(g, INITIAL, steps);
  }

  lemma {:induction false} RunSnoc(g: Config, s: System, steps: seq<Step>, step: Step)
    requires Run(g, s, steps).Some? && Enabled(g, Run(g, s, steps).value, step)
    ensures Run(g, s, steps + [step]) == Some(Apply(g, Run(g, s, steps).value, step))
    decreases steps
  {
    if steps == [] {
      assert [step][1..] == [] && [] + [step] == [step];
    } else {
      assert (steps + [step])[1..] == steps[1..] + [step];
      RunSnoc(g, Apply(g, s, steps[0]), steps[1..], step);
    }
  }

  lemma ReachableStep(g: Config, s: System, step: Step) returns (s': System)
    requires Reachable(g, s) && Enabled(g, s, step)
    ensures s' == Apply(g, s, step) && Reachable(g, s')
  {
    var steps :| Run(g, INITIAL, steps) == Some(s);
    RunSnoc(g, INITIAL, steps, step);
    s' := Apply(g, s, step);
  }

  // --- Published manifests tile the history ---

  ghost function CutPairs(g: Config, cuts: seq<CutRange>, n: nat): (r: seq<Pair>)
    requires GoodCuts(g.h, cuts) && n <= |cuts|
    ensures |r| == n
    ensures forall i | 0 <= i < n :: r[i] == (SummaryOf(g, cuts[i]), ContentOf(g, cuts[i]))
  {
    seq(n, i requires 0 <= i < n => (SummaryOf(g, cuts[i]), ContentOf(g, cuts[i])))
  }

  lemma OfKindPair(files: seq<FileMetadata>, content: FileMetadata, summary: FileMetadata)
    requires content.kind == ContentKind && summary.kind == SummaryKind
    ensures OfKind(files + [content, summary], SummaryKind) == OfKind(files, SummaryKind) + [summary]
    ensures OfKind(files + [content, summary], ContentKind) == OfKind(files, ContentKind) + [content]
  {
    var both := files + [content, summary];
    assert both[..|both| - 1] == files + [content];
    assert (files + [content])[..|files|] == files;
  }

  lemma {:induction false} ManifestEntries(g: Config, cuts: seq<CutRange>, n: nat)
    requires GoodCuts(g.h, cuts) && n <= |cuts|
    ensures OfKind(ManifestAt(g, cuts, n).files, SummaryKind) == Firsts(CutPairs(g, cuts, n))
    ensures OfKind(ManifestAt(g, cuts, n).files, ContentKind) == Seconds(CutPairs(g, cuts, n))
  {
    if n == 0 {
    } else {
      ManifestEntries(g, cuts, n - 1);
      var m, ps := ManifestAt(g, cuts, n - 1), CutPairs(g, cuts, n - 1);
      var content, summary := ContentOf(g, cuts[n - 1]), SummaryOf(g, cuts[n - 1]);
      OfKindPair(m.files, content, summary);
      assert CutPairs(g, cuts, n) == ps + [(summary, content)];
      assert Firsts(ps + [(summary, content)]) == Firsts(ps) + [summary];
      assert Seconds(ps + [(summary, content)]) == Seconds(ps) + [content];
    }
  }

  lemma {:induction false} ManifestRanges(g: Config, cuts: seq<CutRange>, n: nat)
    requires GoodCuts(g.h, cuts) && n <= |cuts|
    ensures NonEmptyRanges(ManifestAt(g, cuts, n).files)
    ensures ManifestAt(g, cuts, n).next == EndAt(cuts, n) && ManifestAt(g, cuts, n).version == 1
  {
    if n == 0 {
    } else {
      ManifestRanges(g, cuts, n - 1);
    }
  }

  lemma CutPairsTile(g: Config, cuts: seq<CutRange>, n: nat)
    requires GoodCuts(g.h, cuts) && 0 < n <= |cuts|
    ensures Tiles(CutPairs(g, cuts, n))
  {
    var ps := CutPairs(g, cuts, n);
    assert Follows(cuts, 0);
    forall i | 0 <= i < n - 1 ensures Meets(Firsts(ps), i) { assert Follows(cuts, i + 1); }
  }

  lemma WriterManifestVerifies(g: Config, cuts: seq<CutRange>, n: nat)
    requires GoodCuts(g.h, cuts) && 0 < n <= |cuts|
    ensures VerifyManifest(ManifestAt(g, cuts, n)) == Ok(CutPairs(g, cuts, n))
  {
    ManifestEntries(g, cuts, n);
    ManifestRanges(g, cuts, n);
    CutPairsTile(g, cuts, n);
    VerifyManifestIff(ManifestAt(g, cuts, n), CutPairs(g, cuts, n));
  }

  /** A published manifest lists the first `n` of some good cuts, all of whose files are in the remote store. */
  ghost predicate Lists(g: Config, remote: map<Path, Bytes>, m: Manifest, cuts: seq<CutRange>, n: nat) {
    && GoodCuts(g.h, cuts) && 0 < n <= |cuts|
    && m == ManifestAt(g, cuts, n)
    && ArchivedOk(g, n, remote, cuts)
  }

  /** The part of the invariant about what has been published and what is being uploaded. */
  lemma InvCuts(g: Config, s: System) returns (cuts: seq<CutRange>)
    requires Inv(g, s)
    ensures GoodCuts(g.h, cuts) && PublishedOk(g, s.published, cuts) && ArchivedOk(g, |s.published|, s.remote, cuts)
    ensures !s.syncing.Idle? ==>
      && |s.published| < |cuts|
      && s.syncing.update.summary.start == s.syncing.update.content.start == cuts[|s.published|].start
  {
    cuts :| InvWith(g, s, cuts);
  }

  lemma PublishedLists(g: Config, s: System, m: Manifest) returns (cuts: seq<CutRange>, n: nat)
    requires Inv(g, s) && m in s.published
    ensures Lists(g, s.remote, m, cuts, n)
  {
    cuts := InvCuts(g, s);
    var k :| 0 <= k < |s.published| && s.published[k] == m;
    n := k + 1;
  }

  /**
   * Every manifest ever published passes `verify_manifest`, and its pairs have non-empty ranges tiling exactly
   * `0..next`, each the checkpoints of a single epoch of the history.
   */
  lemma PublishedManifestsTile(g: Config, s: System, m: Manifest)
    requires Sound(g) && Reachable(g, s) && m in s.published
    ensures VerifyManifest(m).Ok? && m.version == 1
    ensures var ps := VerifyManifest(m).value;
      && Tiles(ps)
      && ps[|ps| - 1].0.end == m.next <= |g.h|
      && (forall i | 0 <= i < |ps| :: GoodCut(g.h, CutRange(ps[i].0.epoch, ps[i].0.start, ps[i].0.end)))
      && (forall i | 0 <= i < |ps| :: ps[i].1.epoch == ps[i].0.epoch)
  {
    ReachableInv(g, s);
    var cuts, n := PublishedLists(g, s, m);
    WriterManifestVerifies(g, cuts, n);
    ManifestRanges(g, cuts, n);
    CutPairsTile(g, cuts, n);
  }

  // --- Published files are never overwritten ---

  ghost predicate Listed(s: System, f: FileMetadata) {
    exists m :: m in s.published && f in m.files
  }

  lemma {:induction false} EntryOfCut(g: Config, cuts: seq<CutRange>, n: nat, f: FileMetadata) returns (j: nat)
    requires GoodCuts(g.h, cuts) && n <= |cuts| && f in ManifestAt(g, cuts, n).files
    ensures j < n && (f == ContentOf(g, cuts[j]) || f == SummaryOf(g, cuts[j]))
  {
    j := n - 1;
    if f != ContentOf(g, cuts[j]) && f != SummaryOf(g, cuts[j]) {
      assert f in ManifestAt(g, cuts, j).files;
      j := EntryOfCut(g, cuts, j, f);
    }
  }

  lemma ListedCut(g: Config, s: System, cuts: seq<CutRange>, f: FileMetadata) returns (k: nat, j: nat)
    requires GoodCuts(g.h, cuts) && PublishedOk(g, s.published, cuts) && Listed(s, f)
    ensures j <= k < |s.published| && (f == ContentOf(g, cuts[j]) || f == SummaryOf(g, cuts[j]))
  {
    var m :| m in s.published && f in m.files;
    k :| 0 <= k < |s.published| && s.published[k] == m;
    j := EntryOfCut(g, cuts, k + 1, f);
  }

  /** A listed file is present with the digest the manifest records. */
  lemma ListedPresent(g: Config, s: System, f: FileMetadata)
    requires Inv(g, s) && Listed(s, f)
    ensures f.FilePath() in s.remote && g.c.sha3(s.remote[f.FilePath()]) == f.digest
  {
    var cuts := InvCuts(g, s);
    var k, j := ListedCut(g, s, cuts, f);
    assert HoldsContent(g, s.remote, cuts[j]) && HoldsSummary(g, s.remote, cuts[j]);
  }

  /** The update in flight starts past everything listed. */
  lemma InFlightUnlisted(g: Config, s: System, f: FileMetadata)
    requires Inv(g, s) && !s.syncing.Idle? && Listed(s, f)
    ensures f.start != s.syncing.update.summary.start && f.start != s.syncing.update.content.start
  {
    var cuts := InvCuts(g, s);
    var k, j := ListedCut(g, s, cuts, f);
    StartsDiffer(g.h, cuts, |s.published|);
  }

  /** `f` is in both remote stores, with the same bytes. */
  ghost predicate Kept(before: map<Path, Bytes>, after: map<Path, Bytes>, f: FileMetadata) {
    f.FilePath() in before && f.FilePath() in after && after[f.FilePath()] == before[f.FilePath()]
  }

  lemma UploadKeeps(s: System, p: Path, done: Syncing, f: FileMetadata)
    requires f.FilePath() in s.remote && f.start != p.start
    ensures Kept(s.remote, Upload(s, p, done).remote, f)
  {}

  lemma StepGrowsPublished(g: Config, s: System, step: Step)
    requires Enabled(g, s, step)
    ensures s.published <= Apply(g, s, step).published
  {}

  lemma StepKeepsListed(g: Config, s: System, step: Step, f: FileMetadata)
    requires Inv(g, s) && Enabled(g, s, step) && Listed(s, f)
    ensures Kept(s.remote, Apply(g, s, step).remote, f)
  {
    ListedPresent(g, s, f);
    if step.UploadSummary? || step.UploadContent? {
      InFlightUnlisted(g, s, f);
      var u := s.syncing.update;
      UploadKeeps(s, u.summary.FilePath(), SummaryUploaded(u), f);
      UploadKeeps(s, u.content.FilePath(), ContentUploaded(u), f);
    }
  }

  lemma ListedLater(s: System, s': System, f: FileMetadata)
    requires Listed(s, f) && s.published <= s'.published
    ensures Listed(s', f)
  {
    var m :| m in s.published && f in m.files;
    assert m in s'.published;
  }

  lemma {:induction false} RunKeepsListed(g: Config, s: System, steps: seq<Step>, f: FileMetadata)
    requires Sound(g) && Inv(g, s) && Listed(s, f) && Run(g, s, steps).Some?
    ensures var s' := Run(g, s, steps).value; s.published <= s'.published && Kept(s.remote, s'.remote, f)
    decreases steps
  {
    if steps == [] {
      ListedPresent(g, s, f);
    } else {
      StepGrowsPublished(g, s, steps[0]);
      StepKeepsListed(g, s, steps[0], f);
      StepKeepsInv(g, s, steps[0]);
      ListedLater(s, Apply(g, s, steps[0]), f);
      RunKeepsListed(g, Apply(g, s, steps[0]), steps[1..], f);
    }
  }

  /**
   * Once a manifest lists a file, the file stays in the remote store unchanged, whatever is written, re-cut
   * after a crash or published later; the recorded digest is that of the stored bytes.
   */
  lemma ListedFilesNeverChange(g: Config, s: System, steps: seq<Step>, f: FileMetadata)
    requires Sound(g) && Reachable(g, s) && Listed(s, f) && Run(g, s, steps).Some?
    ensures var s' := Run(g, s, steps).value;
      && s.published <= s'.published
      && Kept(s.remote, s'.remote, f)
      && g.c.sha3(s'.remote[f.FilePath()]) == f.digest
  {
    ReachableInv(g, s);
    RunKeepsListed(g, s, steps, f);
    ListedPresent(g, s, f);
  }

  lemma {:induction false} FilesGrow(g: Config, cuts: seq<CutRange>, i: nat, j: nat)
    requires GoodCuts(g.h, cuts) && i < j <= |cuts|
    ensures ManifestAt(g, cuts, i).files < ManifestAt(g, cuts, j).files
    decreases j
  {
    var m, cut := ManifestAt(g, cuts, j - 1), cuts[j - 1];
    assert ManifestAt(g, cuts, j).files == m.files + [ContentOf(g, cut), SummaryOf(g, cut)];
    if i == j - 1 {
    } else {
      FilesGrow(g, cuts, i, j - 1);
    }
  }

  /** Later manifests end later, in no earlier epoch. */
  lemma NextGrows(g: Config, cuts: seq<CutRange>, i: nat, j: nat)
    requires WellFormedHistory(g.c, g.h) && GoodCuts(g.h, cuts) && 0 < i < j <= |cuts|
    ensures ManifestAt(g, cuts, i).next < ManifestAt(g, cuts, j).next
    ensures ManifestAt(g, cuts, i).epoch <= ManifestAt(g, cuts, j).epoch
  {
    StartsIncrease(g.h, cuts, i - 1, j - 1);
    EpochsNeverDecrease(g.c, g.h, cuts[i - 1].start, cuts[j - 1].start);
  }

  /** `b` lists everything `a` lists and more, ends later, and in no earlier epoch. */
  ghost predicate Extends(a: Manifest, b: Manifest) {
    a.files < b.files && a.next < b.next && a.epoch <= b.epoch
  }

  lemma ManifestsGrow(g: Config, cuts: seq<CutRange>, i: nat, j: nat)
    requires WellFormedHistory(g.c, g.h) && GoodCuts(g.h, cuts) && 0 < i < j <= |cuts|
    ensures Extends(ManifestAt(g, cuts, i), ManifestAt(g, cuts, j))
  {
    FilesGrow(g, cuts, i, j);
    NextGrows(g, cuts, i, j);
  }

  /** Successive manifests only extend one another. */
  lemma PublishedManifestsExtend(g: Config, s: System, i: nat, j: nat)
    requires Sound(g) && Reachable(g, s) && i < j < |s.published|
    ensures Extends(s.published[i], s.published[j])
  {
    ReachableInv(g, s);
    var cuts := InvCuts(g, s);
    ManifestsGrow(g, cuts, i + 1, j + 1);
  }

  // --- Panics and restarts ---

  lemma UploadStaysAlive(g: Config, s: System, step: Step)
    requires Sound(g) && Inv(g, s) && Enabled(g, s, step) && (step.UploadSummary? || step.UploadContent?)
    ensures Apply(g, s, step).writer == s.writer
  {
    var cuts :| InvWith(g, s, cuts);
    if step.UploadSummary? { UploadSummaryKeepsInv(g, s, cuts); } else { UploadContentKeepsInv(g, s, cuts); }
  }

  lemma WriteStaysAlive(g: Config, s: System, elapsed: bool)
    requires Sound(g) && Inv(g, s) && Enabled(g, s, WriteNext(elapsed))
    ensures Apply(g, s, WriteNext(elapsed)).writer.Some?
  {
    var cuts :| InvWith(g, s, cuts);
    WriteKeepsInv(g, s, elapsed, cuts);
  }

  /** No step of a running archive aborts the process: no assertion fails, no local file is missing. */
  lemma NoStepAborts(g: Config, s: System, step: Step)
    requires Sound(g) && Reachable(g, s) && Enabled(g, s, step) && s.writer.Some? && !step.Crash?
    ensures Apply(g, s, step).writer.Some?
  {
    ReachableInv(g, s);
    match step
    case WriteNext(elapsed) => WriteStaysAlive(g, s, elapsed);
    case UploadSummary => UploadStaysAlive(g, s, step);
    case UploadContent => UploadStaysAlive(g, s, step);
    case _ =>
  }

  /** A stopped archive can be started again exactly when nothing was uploaded yet or a manifest was published. */
  lemma RestartExactly(g: Config, s: System)
    requires Sound(g) && Reachable(g, s) && s.writer.None?
    ensures Apply(g, s, Start).writer.Some? <==> s.remote == map[] || s.published != []
    ensures Apply(g, s, Start).writer.Some? ==>
      Apply(g, s, Start).writer.value.end == if s.published == [] then 0 else s.published[|s.published| - 1].next
  {
    ReachableInv(g, s);
    var cuts :| InvWith(g, s, cuts);
    RecoveredIsLastPublished(g, s, cuts);
  }

  /** Files but no manifest, and no writer. */
  ghost predicate Wedged(s: System) {
    s.writer.None? && s.queue == [] && s.syncing.Idle? && s.remote != map[] && s.manifest.None?
  }

  /** Once wedged, an archive stays wedged: nothing more is ever uploaded or published. */
  lemma {:induction false} WedgedForever(g: Config, s: System, steps: seq<Step>)
    requires Wedged(s) && Run(g, s, steps).Some?
    ensures var s' := Run(g, s, steps).value; Wedged(s') && s'.remote == s.remote && s'.published == s.published
    decreases steps
  {
    if steps == [] {
    } else {
      WedgedForever(g, Apply(g, s, steps[0]), steps[1..]);
    }
  }

  /** Two writes, the second after the timeout, leave the pair of files of checkpoint zero to upload. */
  lemma FirstCut(g: Config, s: System)
    requires Sound(g) && |g.h| >= 2
    requires s == INITIAL.(writer := Some(NewWriter(NewManifest(0, 0))))
    ensures Enabled(g, s, WriteNext(false))
    ensures var s2 := Apply(g, s, WriteNext(false));
      && Enabled(g, s2, WriteNext(true))
      && var s3 := Apply(g, s2, WriteNext(true));
      && |s3.queue| == 1 && s3.syncing.Idle? && s3.remote == map[] && s3.manifest.None?
      && s3.queue[0].summary.FilePath() in s3.local && s3.local[s3.queue[0].summary.FilePath()] != []
  {
    assert WellFormedEntry(g.c, g.h, 0) && WellFormedEntry(g.c, g.h, 1);
    assert SliceReadsBack(g.c, g.h, 0, 1) && g.h[0..1] == [] + [g.h[0]];
    var s2 := Apply(g, s, WriteNext(false));
    assert s2.writer.Some? && s2.writer.value.(offset := 0, reopened := false) == Writer(0, 0, 1, [] + [g.h[0]], 0, NewManifest(0, 0), false);
    assert s2 == s.(writer := s2.writer, local := s2.local);
  }

  /** A crash between the first upload and the first manifest wedges any archive of two checkpoints or more. */
  lemma CrashBeforeFirstManifestWedges(g: Config)
    requires Sound(g) && |g.h| >= 2
    ensures var steps := [Start, WriteNext(false), WriteNext(true), Fetch, UploadSummary, Crash(map[])];
      Run(g, INITIAL, steps).Some? && Wedged(Run(g, INITIAL, steps).value)
  {
    var s1 := Apply(g, INITIAL, Start);
    assert s1.local == map[];
    FirstCut(g, s1);
    var s2 := Apply(g, s1, WriteNext(false));
    var s3 := Apply(g, s2, WriteNext(true));
    var s4 := Apply(g, s3, Fetch);
    var s5 := Apply(g, s4, UploadSummary);
    assert s4.syncing.update.summary.FilePath() in s5.remote;
    CrashWedges(g, s5);
    RunCons(g, s4, UploadSummary, [Crash(map[])]);
    RunCons(g, s3, Fetch, [UploadSummary, Crash(map[])]);
    RunCons(g, s2, WriteNext(true), [Fetch, UploadSummary, Crash(map[])]);
    RunCons(g, s1, WriteNext(false), [WriteNext(true), Fetch, UploadSummary, Crash(map[])]);
    RunCons(g, INITIAL, Start, [WriteNext(false), WriteNext(true), Fetch, UploadSummary, Crash(map[])]);
  }

  lemma CrashWedges(g: Config, s: System)
    requires s.remote != map[] && s.manifest.None?
    ensures Run(g, s, [Crash(map[])]).Some? && Wedged(Run(g, s, [Crash(map[])]).value)
  {
    RunCons(g, s, Crash(map[]), []);
  }

  lemma RunCons(g: Config, s: System, step: Step, rest: seq<Step>)
    requires Enabled(g, s, step)
    ensures Run(g, s, [step] + rest) == Run(g, Apply(g, s, step), rest)
  {
    assert ([step] + rest)[1..] == rest;
  }
}
