/** Reading an archive back: the round trip, the epoch index and the pruning watermark. */
module ArchiveReadTheorems {
  import opened Prelude
  import opened ArchiveTypes
  import opened ArchiveProtocol
  import opened ArchiveInvariant
  import opened ManifestCheck
  import opened ArchiveRead
  import opened ArchiveTheorems

  // --- Round trip ---

  lemma CutFaithful(g: Config, remote: map<Path, Bytes>, cut: CutRange)
    requires Lawful(g.c, g.h) && GoodCut(g.h, cut) && HoldsContent(g, remote, cut) && HoldsSummary(g, remote, cut)
    ensures Faithful(g.c, remote, g.h, (SummaryOf(g, cut), ContentOf(g, cut)))
  {
    ZipEntries(Slice(g.h, cut));
    assert SliceReadsBack(g.c, g.h, cut.start, cut.end);
  }

  lemma ContiguousSlice(ps: seq<Pair>, i: nat, j: nat)
    requires Contiguous(Firsts(ps)) && i <= j <= |ps|
    ensures Contiguous(Firsts(ps[i..j]))
  {
    forall k | 0 <= k < j - i - 1 ensures Meets(Firsts(ps[i..j]), k) { assert Meets(Firsts(ps), i + k); }
  }

  /** Where the selected files begin and end, relative to the range asked for. */
  lemma SelectedSpan(ps: seq<Pair>, lo: nat, hi: nat, rs: Search, re: Search)
    requires Tiles(ps) && Ascending(Firsts(ps)) && Answers(ps, lo, rs) && Answers(ps, hi, re)
    ensures 0 <= StartIndex(rs) < |ps| && ps[StartIndex(rs)].0.start <= lo && 0 <= EndIndex(re) <= |ps|
    ensures EndIndex(re) <= StartIndex(rs) ==> hi <= lo
    ensures 0 < EndIndex(re) < |ps| ==> hi <= ps[EndIndex(re) - 1].0.end
  {
    StartSelected(ps, lo, rs);
    EndSelected(ps, hi, re);
    var si, ei := StartIndex(rs), EndIndex(re);
    if ei < si { assert Firsts(ps)[ei].start <= Firsts(ps)[si].start; }
    if 0 < ei < |ps| { assert Meets(Firsts(ps), ei - 1); }
  }

  /** What a reader of `m` gets for `lo..hi`. */
  ghost function Expected(h: seq<Entry>, m: Manifest, lo: nat, hi: nat): Outcome<Delivery> {
    var end := if hi < m.next then hi else m.next;
    if lo >= m.next then Err else Ok(Delivery(if lo < end <= |h| then h[lo..end] else [], false))
  }

  lemma FaithfulCuts(g: Config, remote: map<Path, Bytes>, cuts: seq<CutRange>, n: nat)
    requires Lawful(g.c, g.h) && GoodCuts(g.h, cuts) && n <= |cuts| && ArchivedOk(g, n, remote, cuts)
    ensures forall i | 0 <= i < n :: Faithful(g.c, remote, g.h, CutPairs(g, cuts, n)[i])
  {
    forall i | 0 <= i < n ensures Faithful(g.c, remote, g.h, CutPairs(g, cuts, n)[i]) {
      CutFaithful(g, remote, cuts[i]);
    }
  }

  lemma ReadSlice(c: Codec, remote: map<Path, Bytes>, h: seq<Entry>, ps: seq<Pair>, i: nat, j: nat, lo: nat, hi: nat)
    requires Numbered(h) && Contiguous(Firsts(ps)) && i < j <= |ps|
    requires forall k | 0 <= k < |ps| :: Faithful(c, remote, h, ps[k])
    ensures ReadPairs(c, remote, ps[i..j], lo, hi) == Delivery(Clip(h, ps[i].0.start, ps[j - 1].0.end, lo, hi), false)
    ensures ps[j - 1].0.end <= |h|
  {
    ContiguousSlice(ps, i, j);
    ReadFaithfulPairs(c, remote, h, ps[i..j], lo, hi);
  }

  lemma ClipSpan(h: seq<Entry>, a: nat, b: nat, lo: nat, hi: nat, end: nat)
    requires a <= lo && b <= end <= |h| && (b < end ==> hi <= b)
    ensures Clip(h, a, b, lo, hi) == Between(h, lo, if hi < end then hi else end)
  {}

  lemma ReachBound(c: Codec, remote: map<Path, Bytes>, h: seq<Entry>, ps: seq<Pair>, i: nat)
    requires Tiles(ps) && Ascending(Firsts(ps)) && i < |ps|
    requires forall k | 0 <= k < |ps| :: Faithful(c, remote, h, ps[k])
    ensures ps[i].0.end <= Reach(ps) <= |h|
  {
    assert Faithful(c, remote, h, ps[|ps| - 1]);
    if i < |ps| - 1 { AcceptedEndsBefore(ps, i, |ps| - 1); }
  }

  lemma ReadIndices(
    c: Codec, remote: map<Path, Bytes>, h: seq<Entry>, ps: seq<Pair>, si: nat, ei: nat, lo: nat, hi: nat)
    requires Numbered(h) && Tiles(ps) && Ascending(Firsts(ps)) && si < ei <= |ps|
    requires forall i | 0 <= i < |ps| :: Faithful(c, remote, h, ps[i])
    requires ps[si].0.start <= lo && (ei < |ps| ==> hi <= ps[ei - 1].0.end)
    ensures ReadPairs(c, remote, ps[si..ei], lo, hi) ==
            Delivery(Between(h, lo, if hi < Reach(ps) then hi else Reach(ps)), false)
  {
    ReadSlice(c, remote, h, ps, si, ei, lo, hi);
    ReachBound(c, remote, h, ps, ei - 1);
    ClipSpan(h, ps[si].0.start, ps[ei - 1].0.end, lo, hi, Reach(ps));
  }

  /** Faithful pairs that tile the history, read through the selection, yield the history clipped to the range. */
  lemma ReadSelected(
    c: Codec, remote: map<Path, Bytes>, h: seq<Entry>, ps: seq<Pair>, lo: nat, hi: nat, rs: Search, re: Search)
    requires Numbered(h) && Tiles(ps) && Ascending(Firsts(ps)) && Answers(ps, lo, rs) && Answers(ps, hi, re)
    requires forall i | 0 <= i < |ps| :: Faithful(c, remote, h, ps[i])
    requires lo < Reach(ps)
    ensures StartIndex(rs) >= 0
    ensures ReadPairs(c, remote, Between(ps, StartIndex(rs), EndIndex(re)), lo, hi) ==
            Delivery(Between(h, lo, if hi < Reach(ps) then hi else Reach(ps)), false)
  {
    SelectedSpan(ps, lo, hi, rs, re);
    var si, ei := StartIndex(rs), EndIndex(re);
    if si < ei {
      ReadIndices(c, remote, h, ps, si, ei, lo, hi);
    } else {
      assert Between(ps, si, ei) == [];
      assert Between(h, lo, hi) == [];
    }
  }

  lemma ReadVerified(
    c: Codec, remote: map<Path, Bytes>, h: seq<Entry>, m: Manifest, ps: seq<Pair>, lo: nat, hi: nat, rs: Search, re: Search)
    requires VerifyManifest(m) == Ok(ps) && Tiles(ps) && Ascending(Firsts(ps)) && Reach(ps) == m.next
    requires Numbered(h) && forall i | 0 <= i < |ps| :: Faithful(c, remote, h, ps[i])
    requires Answers(ps, lo, rs) && Answers(ps, hi, re)
    ensures ReadRange(c, remote, m, lo, hi, rs, re) == Expected(h, m, lo, hi)
  {
    if lo < m.next {
      ReadSelected(c, remote, h, ps, lo, hi, rs, re);
      BetweenSlice(h, lo, if hi < m.next then hi else m.next);
    }
  }

  lemma BetweenSlice(h: seq<Entry>, lo: nat, end: nat)
    ensures Between(h, lo, end) == if lo < end <= |h| then h[lo..end] else []
  {
    if lo == end <= |h| { assert h[lo..end] == []; }
  }

  lemma SoundNumbered(g: Config)
    requires Sound(g)
    ensures Numbered(g.h)
  {
    forall i | 0 <= i < |g.h| ensures g.h[i].summary.seqNum == i { assert WellFormedEntry(g.c, g.h, i); }
  }

  lemma ReadListed(
    g: Config, remote: map<Path, Bytes>, m: Manifest, cuts: seq<CutRange>, n: nat, lo: nat, hi: nat, rs: Search, re: Search)
    requires Sound(g) && Lists(g, remote, m, cuts, n)
    requires Answers(CutPairs(g, cuts, n), lo, rs) && Answers(CutPairs(g, cuts, n), hi, re)
    ensures ReadRange(g.c, remote, m, lo, hi, rs, re) == Expected(g.h, m, lo, hi)
  {
    var ps := CutPairs(g, cuts, n);
    WriterManifestVerifies(g, cuts, n);
    AcceptedArranges(m, ps);
    FaithfulCuts(g, remote, cuts, n);
    ManifestAtNextAndEpoch(g, cuts, n);
    SoundNumbered(g);
    ReadVerified(g.c, remote, g.h, m, ps, lo, hi, rs, re);
  }

  /**
   * Write, then read: in every reachable state and for every manifest ever published, however stale, reading
   * `lo..hi` delivers exactly the checkpoints of the history in `lo..hi` below the manifest's end, once each
   * and in order, or an error when the range starts past the end.
   */
  lemma ReadRoundTrip(g: Config, s: System, m: Manifest, lo: nat, hi: nat, rs: Search, re: Search)
    requires Sound(g) && Reachable(g, s) && m in s.published
    requires VerifyManifest(m).Ok? ==> Answers(VerifyManifest(m).value, lo, rs) && Answers(VerifyManifest(m).value, hi, re)
    ensures ReadRange(g.c, s.remote, m, lo, hi, rs, re) == Expected(g.h, m, lo, hi)
  {
    ReachableInv(g, s);
    var cuts, n := PublishedLists(g, s, m);
    WriterManifestVerifies(g, cuts, n);
    ReadListed(g, s.remote, m, cuts, n, lo, hi, rs, re);
  }

  // --- The epoch index ---

  /** How many of the first `n` checkpoints belong to epochs up to `epoch`. */
  ghost function CountUpTo(h: seq<Entry>, n: nat, epoch: nat): nat
    requires n <= |h|
  {
    if n == 0 then 0 else CountUpTo(h, n - 1, epoch) + if h[n - 1].summary.epoch <= epoch then 1 else 0
  }

  lemma {:induction false} CountSplits(c: Codec, h: seq<Entry>, n: nat, epoch: nat, v: nat)
    requires WellFormedHistory(c, h) && v <= n <= |h|
    requires v > 0 ==> h[v - 1].summary.epoch <= epoch
    requires v < n ==> h[v].summary.epoch > epoch
    ensures CountUpTo(h, n, epoch) == v
  {
    if n > v {
      EpochsNeverDecrease(c, h, v, n - 1);
      CountSplits(c, h, n - 1, epoch, v);
    } else if n > 0 {
      if n > 1 { EpochsNeverDecrease(c, h, n - 2, n - 1); }
      CountSplits(c, h, n - 1, epoch, n - 1);
    }
  }

  lemma AfterEpochOfCuts(g: Config, cuts: seq<CutRange>, n: nat, epoch: nat)
    requires Sound(g) && GoodCuts(g.h, cuts) && 0 < n <= |cuts|
    ensures FirstStartAfter(Firsts(CutPairs(g, cuts, n)), epoch) ==
      if EpochBefore(g.h, EndAt(cuts, n)) > epoch then CountUpTo(g.h, EndAt(cuts, n), epoch) else U64_MAX
  {
    var ss := Firsts(CutPairs(g, cuts, n));
    var k := FirstAfterIndex(ss, epoch);
    assert ss[n - 1].epoch == cuts[n - 1].epoch == EpochBefore(g.h, EndAt(cuts, n));
    if k < n {
      assert ss[k] == SummaryOf(g, cuts[k]);
      assert Follows(cuts, k);
      if k > 0 { assert ss[k - 1] == SummaryOf(g, cuts[k - 1]); }
      if k < n - 1 { StartsIncrease(g.h, cuts, k, n - 1); }
      EpochsNeverDecrease(g.c, g.h, cuts[k].start, EndAt(cuts, n) - 1);
      CountSplits(g.c, g.h, EndAt(cuts, n), epoch, cuts[k].start);
    }
  }

  /**
   * For every published manifest, `next_checkpoint_after_epoch(e)` is the number of archived checkpoints of
   * epochs up to `e` when a later epoch is archived, and `u64::MAX` otherwise; it never panics.
   */
  lemma AfterEpochCounts(g: Config, s: System, m: Manifest, epoch: nat)
    requires Sound(g) && Reachable(g, s) && m in s.published
    ensures m.next <= |g.h| && NextCheckpointAfterEpoch(m, epoch) ==
      Ok(if EpochBefore(g.h, m.next) > epoch then CountUpTo(g.h, m.next, epoch) else U64_MAX)
  {
    ReachableInv(g, s);
    var cuts, n := PublishedLists(g, s, m);
    ManifestEntries(g, cuts, n);
    ManifestRanges(g, cuts, n);
    CutPairsTile(g, cuts, n);
    ArrangedIsSorted(m, CutPairs(g, cuts, n));
    AfterEpochOfCuts(g, cuts, n, epoch);
    ManifestAtNextAndEpoch(g, cuts, n);
  }

  // --- The pruning watermark ---

  /** A reader: whether it is used for pruning, and its cached manifest. */
  datatype Reader = Reader(forPruning: bool, cache: Manifest)

  function LatestAvailable(m: Manifest): Outcome<nat> {
    if m.next == 0 then Err else Ok(m.next - 1)
  }

  /** `get_archive_watermark`: the least latest checkpoint over the readers used for pruning. */
  function ArchiveWatermark(readers: seq<Reader>): Outcome<Option<nat>> {
    if readers == [] then Ok(None)
    else if !readers[0].forPruning then ArchiveWatermark(readers[1..])
    else
      match LatestAvailable(readers[0].cache)
      case Err => Err
      case Panicked => Panicked
      case Ok(n) =>
        match ArchiveWatermark(readers[1..])
        case Ok(Some(w)) => Ok(Some(if w < n then w else n))
        case Ok(None) => Ok(Some(n))
        case other => other
  }

  lemma {:induction false} WatermarkBelowEach(readers: seq<Reader>, w: nat, i: nat)
    requires ArchiveWatermark(readers) == Ok(Some(w)) && i < |readers| && readers[i].forPruning
    ensures w < readers[i].cache.next
  {
    if readers[0].forPruning {
      if i > 0 {
        var rest := ArchiveWatermark(readers[1..]);
        assert rest.Ok?;
        if rest.value.Some? { WatermarkBelowEach(readers[1..], rest.value.value, i - 1); }
        else { NoneFlagged(readers[1..], i - 1); }
      }
    } else {
      WatermarkBelowEach(readers[1..], w, i - 1);
    }
  }

  /** The watermark is the latest checkpoint of one of them, so it is no lower than it need be. */
  lemma {:induction false} WatermarkAttained(readers: seq<Reader>, w: nat) returns (i: nat)
    requires ArchiveWatermark(readers) == Ok(Some(w))
    ensures i < |readers| && readers[i].forPruning && w + 1 == readers[i].cache.next
  {
    if readers[0].forPruning && w + 1 == readers[0].cache.next {
      i := 0;
    } else {
      i := WatermarkAttained(readers[1..], w);
      i := i + 1;
    }
  }

  /**
   * There is a watermark exactly when some reader is used for pruning and all such have a checkpoint; none when no
   * reader is, and an error when one of them has nothing yet.
   */
  lemma {:induction false} WatermarkExactly(readers: seq<Reader>)
    ensures var r := ArchiveWatermark(readers);
      && (r == Ok(None) <==> forall i | 0 <= i < |readers| :: !readers[i].forPruning)
      && (r.Err? <==> exists i | 0 <= i < |readers| :: readers[i].forPruning && readers[i].cache.next == 0)
      && !r.Panicked?
  {
    if readers == [] {
    } else {
      var rest := readers[1..];
      WatermarkExactly(rest);
      assert forall i | 0 <= i < |rest| :: rest[i] == readers[i + 1];
      assert forall i | 0 < i < |readers| :: readers[i] == rest[i - 1];
    }
  }

  lemma {:induction false} NoneFlagged(readers: seq<Reader>, i: nat)
    requires ArchiveWatermark(readers) == Ok(None) && i < |readers|
    ensures !readers[i].forPruning
  {
    if i > 0 && !readers[0].forPruning { NoneFlagged(readers[1..], i - 1); }
  }

  ghost predicate ArchivedIn(g: Config, s: System, cut: CutRange, n: nat) {
    && GoodCut(g.h, cut) && cut.start <= n < cut.end
    && s.published != []
    && ContentOf(g, cut) in s.published[|s.published| - 1].files
    && SummaryOf(g, cut) in s.published[|s.published| - 1].files
    && HoldsContent(g, s.remote, cut) && HoldsSummary(g, s.remote, cut)
  }

  /** Checkpoint `n` is archived: its summary and contents sit in files the remote manifest lists. */
  ghost predicate Archived(g: Config, s: System, n: nat) {
    exists cut: CutRange :: ArchivedIn(g, s, cut, n)
  }

  lemma {:induction false} CutHolding(h: seq<Entry>, cuts: seq<CutRange>, p: nat, n: nat) returns (j: nat)
    requires GoodCuts(h, cuts) && p <= |cuts| && n < EndAt(cuts, p)
    ensures j < p && cuts[j].start <= n < cuts[j].end
  {
    j := p - 1;
    if n < cuts[j].start {
      assert Follows(cuts, j);
      j := CutHolding(h, cuts, j, n);
    }
  }

  lemma {:induction false} CutIsListed(g: Config, cuts: seq<CutRange>, p: nat, j: nat)
    requires GoodCuts(g.h, cuts) && j < p <= |cuts|
    ensures ContentOf(g, cuts[j]) in ManifestAt(g, cuts, p).files && SummaryOf(g, cuts[j]) in ManifestAt(g, cuts, p).files
  {
    if j < p - 1 {
      CutIsListed(g, cuts, p - 1, j);
    } else {
      var files := ManifestAt(g, cuts, p).files;
      assert files[|files| - 2] == ContentOf(g, cuts[j]) && files[|files| - 1] == SummaryOf(g, cuts[j]);
    }
  }

  lemma CutArchived(g: Config, s: System, cuts: seq<CutRange>, j: nat, n: nat)
    requires GoodCuts(g.h, cuts) && PublishedOk(g, s.published, cuts) && ArchivedOk(g, |s.published|, s.remote, cuts)
    requires j < |s.published| && cuts[j].start <= n < cuts[j].end
    ensures ArchivedIn(g, s, cuts[j], n)
  {
    CutIsListed(g, cuts, |s.published|, j);
  }

  lemma CutsArchive(g: Config, s: System, cuts: seq<CutRange>, k: nat, n: nat)
    requires GoodCuts(g.h, cuts) && PublishedOk(g, s.published, cuts) && ArchivedOk(g, |s.published|, s.remote, cuts)
    requires k < |s.published| && n < EndAt(cuts, k + 1)
    ensures Archived(g, s, n)
  {
    var j := CutHolding(g.h, cuts, k + 1, n);
    CutArchived(g, s, cuts, j, n);
  }

  lemma BelowNextArchived(g: Config, s: System, m: Manifest, n: nat)
    requires Inv(g, s) && m in s.published && n < m.next
    ensures Archived(g, s, n)
  {
    var cuts := InvCuts(g, s);
    var k :| 0 <= k < |s.published| && s.published[k] == m;
    ManifestAtNextAndEpoch(g, cuts, k + 1);
    CutsArchive(g, s, cuts, k, n);
  }

  lemma {:induction false} RunGrowsPublished(g: Config, s: System, steps: seq<Step>)
    requires Run(g, s, steps).Some?
    ensures s.published <= Run(g, s, steps).value.published
    decreases steps
  {
    if steps == [] {
    } else {
      StepGrowsPublished(g, s, steps[0]);
      RunGrowsPublished(g, Apply(g, s, steps[0]), steps[1..]);
    }
  }

  /**
   * Pruning safety: when the watermark computed from cached manifests, however stale, is `w`, every archive used
   * for pruning holds every checkpoint up to `w`, now and in every later state.
   */
  lemma PruningSafe(readers: seq<Reader>, w: nat, i: nat, g: Config, s: System, steps: seq<Step>, n: nat)
    requires ArchiveWatermark(readers) == Ok(Some(w)) && i < |readers| && readers[i] == Reader(true, s.cache)
    requires Sound(g) && Reachable(g, s) && Run(g, s, steps).Some? && n <= w
    ensures Archived(g, Run(g, s, steps).value, n)
  {
    WatermarkBelowEach(readers, w, i);
    ReachableInv(g, s);
    CacheIsPublished(g, s);
    RunGrowsPublished(g, s, steps);
    RunKeepsInv(g, s, steps);
    var k :| 0 <= k < |s.published| && s.published[k] == s.cache;
    assert Run(g, s, steps).value.published[k] == s.cache;
    BelowNextArchived(g, Run(g, s, steps).value, s.cache, n);
  }

  lemma CacheIsPublished(g: Config, s: System)
    requires Inv(g, s) && s.cache.next > 0
    ensures s.cache in s.published
  {}
}
